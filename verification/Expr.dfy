/**
 Kconfig expressions and their value under an assignment to the symbols
 (struct expr, struct symbol, expr_calc_value).
 */
module Exprs {
  import opened Tristates
  import opened Numbers

  datatype SymType = S_UNKNOWN | S_BOOLEAN | S_TRISTATE | S_INT | S_HEX | S_STRING | S_OTHER

  /** A symbol as expressions see it. Pointer identity is equality of these values. */
  datatype Symbol = Symbol(id: nat, name: string, typ: SymType, isConst: bool) {
    predicate IsTri() { typ == S_BOOLEAN || typ == S_TRISTATE }
  }

  const SYMBOL_NO := Symbol(0, "n", S_UNKNOWN, true)
  const SYMBOL_MOD := Symbol(1, "m", S_UNKNOWN, true)
  const SYMBOL_YES := Symbol(2, "y", S_UNKNOWN, true)

  predicate IsTriConst(s: Symbol) { s == SYMBOL_NO || s == SYMBOL_MOD || s == SYMBOL_YES }

  datatype RelOp = EQUAL | UNEQUAL | LTH | LEQ | GTH | GEQ {
    function Negated(): RelOp {
      match this
      case EQUAL => UNEQUAL
      case UNEQUAL => EQUAL
      case LEQ => GTH
      case GEQ => LTH
      case LTH => GEQ
      case GTH => LEQ
    }
  }

  datatype BoolOp = AND | OR {
    function Dual(): BoolOp { if this == AND then OR else AND }
    function Apply(a: Tristate, b: Tristate): Tristate { if this == AND then And3(a, b) else Or3(a, b) }
    /** The constant an operand is replaced by once it has become redundant. */
    function Neutral(): Symbol { if this == AND then SYMBOL_YES else SYMBOL_NO }
    function Absorbing(): Symbol { if this == AND then SYMBOL_NO else SYMBOL_YES }
    function NeutralValue(): Tristate { if this == AND then YES else NO }
  }

  datatype Expr =
    | Sym(s: Symbol)
    | Not(e: Expr)
    | Bin(op: BoolOp, l: Expr, r: Expr)
    | Cmp(rel: RelOp, a: Symbol, b: Symbol)
  {
    predicate IsOp(o: BoolOp) { Bin? && op == o }

    function Size(): (n: nat)
      ensures n >= 1
    {
      match this
      case Sym(_) => 1
      case Cmp(_, _, _) => 1
      case Not(c) => 1 + c.Size()
      case Bin(_, x, y) => 1 + x.Size() + y.Size()
    }
  }

  /**
   An assignment: the calculated tristate of each bool and tristate symbol, the
   text of each string, int and hex symbol, and whether modules are enabled.
   */
  datatype Env = Env(tri: Symbol -> Tristate, text: Symbol -> string, modules: bool)

  /** symbol.curr.tri: y, m, n are fixed; symbols that are neither bool nor tristate read n. */
  function TriOf(s: Symbol, env: Env): Tristate {
    if s == SYMBOL_NO then NO
    else if s == SYMBOL_MOD then MOD
    else if s == SYMBOL_YES then YES
    else if s.IsTri() then env.tri(s)
    else NO
  }

  /** sym_get_string_value. */
  function TextOf(s: Symbol, env: Env): string {
    match s.typ
    case S_BOOLEAN => TriText(env.tri(s), env.modules)
    case S_TRISTATE => TriText(env.tri(s), env.modules)
    case S_UNKNOWN => s.name
    case S_OTHER => s.name
    case _ => env.text(s)
  }

  function TriText(t: Tristate, modules: bool): string {
    if t == NO then "n" else if t == MOD then (if modules then "m" else "n") else "y"
  }

  datatype TextKind = KString | KSigned | KUnsigned | KInvalid

  /** expr_parse_string: how a text is read, and the number it holds. */
  function ParseString(str: string, typ: SymType): (TextKind, int) {
    match typ
    case S_BOOLEAN => (KSigned, TriNumber(str))
    case S_TRISTATE => (KSigned, TriNumber(str))
    case S_INT => (NumberKind(str, 10, StrToLLOverflows(str, 10), KSigned), StrToLL(str, 10))
    case S_HEX => (NumberKind(str, 16, ScanNumber(str, 16).mag > ULLONG_MAX, KUnsigned), StrToULL(str, 16))
    case S_OTHER => (KInvalid, 0)
    case _ => (NumberKind(str, 0, StrToLLOverflows(str, 0), KSigned), StrToLL(str, 0))
  }

  function TriNumber(str: string): int {
    if str == "n" then 0 else if str == "m" then 1 else if str == "y" then 2 else -1
  }

  function NumberKind(str: string, base: nat, overflow: bool, kind: TextKind): TextKind {
    var tail := ScanNumber(str, base).tail;
    if !overflow && tail == |str| && tail > 0 && IsXDigit(str[tail - 1]) then kind else KString
  }

  function Sign(x: int): int { if x > 0 then 1 else if x < 0 then -1 else 0 }

  /** Whether two texts of these types are ordered at all, and their three-way comparison. */
  function CompareTexts(t1: SymType, s1: string, t2: SymType, s2: string): (bool, int) {
    if t1 == S_STRING && t2 == S_STRING then (true, StrCmp(s1, s2))
    else
      var (k1, v1) := ParseString(s1, t1);
      var (k2, v2) := ParseString(s2, t2);
      if k1 == KString || k2 == KString then (true, StrCmp(s1, s2))
      else if k1 == KInvalid || k2 == KInvalid then (false, StrCmp(s1, s2))
      else if k1 == KUnsigned || k2 == KUnsigned
      then (true, Sign(v1 % (ULLONG_MAX + 1) - v2 % (ULLONG_MAX + 1)))
      else (true, Sign(v1 - v2))
  }

  function CompareResult(rel: RelOp, ordered: bool, res: int): (v: Tristate)
    ensures v == NO || v == YES
  {
    if !ordered && rel != EQUAL && rel != UNEQUAL then NO
    else match rel
      case EQUAL => Truth(res == 0)
      case UNEQUAL => Truth(res != 0)
      case GEQ => Truth(res >= 0)
      case GTH => Truth(res > 0)
      case LEQ => Truth(res <= 0)
      case LTH => Truth(res < 0)
  }

  /** The comparison nodes of expr_calc_value: always n or y. */
  function Compare(rel: RelOp, a: Symbol, b: Symbol, env: Env): (v: Tristate)
    ensures v == NO || v == YES
  {
    var (ordered, res) := CompareTexts(a.typ, TextOf(a, env), b.typ, TextOf(b, env));
    CompareResult(rel, ordered, res)
  }

  /** expr_calc_value on a non-NULL expression. */
  function Value(e: Expr, env: Env): Tristate {
    match e
    case Sym(s) => TriOf(s, env)
    case Not(c) => Not3(Value(c, env))
    case Bin(op, l, r) => op.Apply(Value(l, env), Value(r, env))
    case Cmp(rel, a, b) => Compare(rel, a, b, env)
  }

  /** expr_calc_value: a missing condition is y. */
  function ValueOpt(e: Option<Expr>, env: Env): Tristate {
    if e.None? then YES else Value(e.value, env)
  }

  /** What every state of the evaluator guarantees: bools are never m, and no symbol is m without modules. */
  ghost predicate WfEnv(env: Env) {
    && (forall s: Symbol :: s.typ == S_BOOLEAN ==> env.tri(s) != MOD)
    && (!env.modules ==> forall s: Symbol :: s.IsTri() ==> env.tri(s) != MOD)
  }

  /** A text that strtoll with base 0 does not read as a number. */
  predicate NotNumeric(str: string) {
    NumberKind(str, 0, StrToLLOverflows(str, 0), KSigned) == KString
  }

  /**
   Constants with which a tristate may be compared: y, m, n themselves, or a
   quoted text that is neither one of these letters nor a number. (The constant
   1 compares equal to m, see ConstantOneEqualsMod.)
   */
  predicate ConstOk(s: Symbol) {
    s.isConst ==>
      (s.typ == S_UNKNOWN &&
       (IsTriConst(s) || (NotNumeric(s.name) && s.name != "n" && s.name != "m" && s.name != "y")))
  }

  /** The expressions the optimiser is meant for: only comparisons of bools and tristates limit the constants. */
  predicate WfExpr(e: Expr) {
    match e
    case Sym(_) => true
    case Not(c) => WfExpr(c)
    case Bin(_, l, r) => WfExpr(l) && WfExpr(r)
    case Cmp(_, a, b) => a.typ != S_OTHER && b.typ != S_OTHER && (a.IsTri() ==> ConstOk(b))
  }

  /** Size and shape facts about the texts "n", "m" and "y". */
  lemma LettersAreNotNumbers()
    ensures NotNumeric("n") && NotNumeric("m") && NotNumeric("y")
  {
    assert ScanNumber("n", 0).tail == 0;
    assert ScanNumber("m", 0).tail == 0;
    assert ScanNumber("y", 0).tail == 0;
  }

  /** A bool or tristate symbol equals the constant x exactly when its text is x's name. */
  lemma CompareTri(rel: RelOp, a: Symbol, b: Symbol, env: Env)
    requires WfEnv(env) && a.IsTri() && b.isConst && ConstOk(b)
    ensures Compare(EQUAL, a, b, env) == Truth(TextOf(a, env) == b.name)
    ensures Compare(UNEQUAL, a, b, env) == Truth(TextOf(a, env) != b.name)
    ensures TextOf(a, env) == if TriOf(a, env) == NO then "n" else if TriOf(a, env) == MOD then "m" else "y"
  {
    LettersAreNotNumbers();
    assert ParseString(b.name, b.typ).0 == KString;
  }

  /** Without S_OTHER operands the negated comparison is the complement. */
  lemma NegatedCompare(rel: RelOp, a: Symbol, b: Symbol, env: Env)
    requires a.typ != S_OTHER && b.typ != S_OTHER
    ensures Compare(rel.Negated(), a, b, env) == Not3(Compare(rel, a, b, env))
  {
  }

  /** The numeric constant 1 is equal to a tristate that is m: why ConstOk excludes it. */
  lemma ConstantOneEqualsMod(a: Symbol, id: nat, env: Env)
    requires a.typ == S_TRISTATE && env.modules && env.tri(a) == MOD
    ensures Compare(EQUAL, a, Symbol(id, "1", S_UNKNOWN, true), env) == YES
    ensures Compare(UNEQUAL, a, SYMBOL_MOD, env) == NO
  {
    LettersAreNotNumbers();
    assert Digits("1", 1, 10, 1) == (1, 1);
    assert ScanNumber("1", 0) == Scan(false, 1, 1);
  }
}
