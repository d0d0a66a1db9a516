/** The three-valued logic of expr.h: n < m < y, coded 0, 1, 2 as in the C enum. */
module Tristates {
  type Tristate = t: int | 0 <= t <= 2

  const NO: Tristate := 0
  const MOD: Tristate := 1
  const YES: Tristate := 2

  /** EXPR_AND, EXPR_OR and EXPR_NOT. */
  function And3(a: Tristate, b: Tristate): Tristate { if a < b then a else b }
  function Or3(a: Tristate, b: Tristate): Tristate { if a > b then a else b }
  function Not3(a: Tristate): Tristate { 2 - a }

  function Truth(b: bool): Tristate { if b then YES else NO }

  datatype Option<+T> = None | Some(value: T) {
    function GetOr(default: T): T { if None? then default else value }
  }
}
