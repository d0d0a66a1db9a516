/**
 expr_join_or and expr_join_and: what two operands of one OR or AND amount to.
 */
module Joins {
  import opened Tristates
  import opened Exprs
  import opened EliminateEqs

  predicate IsRel(e: Expr, rel: RelOp, b: Symbol) { e.Cmp? && e.rel == rel && e.b == b }
  predicate IsEq(e: Expr) { e.Cmp? && e.rel == EQUAL }
  predicate IsNe(e: Expr) { e.Cmp? && e.rel == UNEQUAL }

  /** {x, y} are compared against, in either order. */
  predicate PairOf(e1: Expr, e2: Expr, rel: RelOp, x: Symbol, y: Symbol) {
    (IsRel(e1, rel, x) && IsRel(e2, rel, y)) || (IsRel(e1, rel, y) && IsRel(e2, rel, x))
  }

  /** One operand is the bare symbol, the other the given comparison of it. */
  predicate BareAnd(e1: Expr, e2: Expr, rel: RelOp, b: Symbol) {
    (e1.Sym? && IsRel(e2, rel, b)) || (e2.Sym? && IsRel(e1, rel, b))
  }

  /** sym1 of the join functions: the symbol the first operand speaks about. */
  function Subject1(e: Expr): Option<Symbol> {
    match e
    case Sym(s) => Some(s)
    case Cmp(rel, a, _) => if rel == EQUAL || rel == UNEQUAL then Some(a) else None
    case Not(Sym(s)) => Some(s)
    case Not(Cmp(rel, a, _)) => if rel == EQUAL || rel == UNEQUAL then Some(a) else None
    case _ => None
  }

  /** sym2: the second operand may only be negated if it is a bare symbol. */
  function Subject2(e: Expr): Option<Symbol> {
    if e.Not? && !e.e.Sym? then None else Subject1(e)
  }

  predicate SameSubject(e1: Expr, e2: Expr) {
    Subject1(e1).Some? && Subject1(e1) == Subject2(e2) && Subject1(e1).value.IsTri()
  }

  /** expr_join_or: an expression equal to e1 || e2, if a rule applies. */
  function JoinOr(e1: Expr, e2: Expr): Option<Expr> {
    if ExprEq(e1, e2) then Some(e1)
    else if !SameSubject(e1, e2) then None
    else JoinOrRules(Subject1(e1).value, e1, e2)
  }

  function JoinOrRules(sym: Symbol, e1: Expr, e2: Expr): Option<Expr> {
    if sym.typ == S_TRISTATE && PairOf(e1, e2, EQUAL, SYMBOL_YES, SYMBOL_MOD) then Some(Cmp(UNEQUAL, sym, SYMBOL_NO))
    else if sym.typ == S_TRISTATE && PairOf(e1, e2, EQUAL, SYMBOL_YES, SYMBOL_NO)
      then Some(Cmp(UNEQUAL, sym, SYMBOL_MOD))
    else if sym.typ == S_TRISTATE && PairOf(e1, e2, EQUAL, SYMBOL_MOD, SYMBOL_NO)
      then Some(Cmp(UNEQUAL, sym, SYMBOL_YES))
    else if sym.typ == S_BOOLEAN &&
            ((e1.Not? && e1.e.Sym? && e2.Sym?) || (e2.Not? && e2.e.Sym? && e1.Sym?)) then Some(Sym(SYMBOL_YES))
    else None
  }

  /** expr_join_and: an expression equal to e1 && e2, if a rule applies. */
  function JoinAnd(e1: Expr, e2: Expr): Option<Expr> {
    if ExprEq(e1, e2) then Some(e1)
    else if !SameSubject(e1, e2) then None
    else JoinAndRules(Subject1(e1).value, e1, e2)
  }

  function JoinAndRules(sym: Symbol, e1: Expr, e2: Expr): Option<Expr> {
    var bare := JoinAndBare(sym, e1, e2);
    if bare.Some? then bare
    else if sym.typ != S_TRISTATE then None
    else if IsEq(e1) && IsNe(e2) && e1.b.isConst && e2.b.isConst then
      Some(if e1.b != e2.b then Cmp(EQUAL, sym, e1.b) else Sym(SYMBOL_NO))
    else if IsNe(e1) && IsEq(e2) && e1.b.isConst && e2.b.isConst then
      Some(if e1.b != e2.b then Cmp(EQUAL, sym, e2.b) else Sym(SYMBOL_NO))
    else if PairOf(e1, e2, UNEQUAL, SYMBOL_YES, SYMBOL_NO) then Some(Cmp(EQUAL, sym, SYMBOL_MOD))
    else if PairOf(e1, e2, UNEQUAL, SYMBOL_YES, SYMBOL_MOD) then Some(Cmp(EQUAL, sym, SYMBOL_NO))
    else if PairOf(e1, e2, UNEQUAL, SYMBOL_MOD, SYMBOL_NO) then Some(Cmp(EQUAL, sym, SYMBOL_YES))
    else None
  }

  /** The rules for a bare symbol and a comparison of it. */
  function JoinAndBare(sym: Symbol, e1: Expr, e2: Expr): Option<Expr> {
    if BareAnd(e1, e2, EQUAL, SYMBOL_YES) then Some(Cmp(EQUAL, sym, SYMBOL_YES))
    else if BareAnd(e1, e2, UNEQUAL, SYMBOL_NO) then Some(Sym(sym))
    else if BareAnd(e1, e2, UNEQUAL, SYMBOL_MOD) then Some(Cmp(EQUAL, sym, SYMBOL_YES))
    else None
  }

  function JoinRules(op: BoolOp, sym: Symbol, e1: Expr, e2: Expr): Option<Expr> {
    if op == AND then JoinAndRules(sym, e1, e2) else JoinOrRules(sym, e1, e2)
  }

  function Join(op: BoolOp, e1: Expr, e2: Expr): Option<Expr> {
    if op == AND then JoinAnd(e1, e2) else JoinOr(e1, e2)
  }

  /** A join has the value of its two operands together. */
  lemma JoinKeepsValue(op: BoolOp, e1: Expr, e2: Expr, env: Env)
    requires WfExpr(e1) && WfExpr(e2) && WfEnv(env)
    requires Join(op, e1, e2).Some?
    ensures Value(Join(op, e1, e2).value, env) == op.Apply(Value(e1, env), Value(e2, env))
  {
    if ExprEq(e1, e2) {
      ExprEqSound(e1, e2, env);
    } else {
      JoinShape(op, e1, e2);
      RulesKeepValue(op, Subject1(e1).value, e1, e2, env);
    }
  }

  lemma RulesKeepValue(op: BoolOp, sym: Symbol, e1: Expr, e2: Expr, env: Env)
    requires sym.IsTri() && Subject1(e1) == Subject2(e2) == Some(sym) && JoinRules(op, sym, e1, e2).Some?
    requires WfExpr(e1) && WfExpr(e2) && WfExpr(JoinRules(op, sym, e1, e2).value) && WfEnv(env)
    ensures Value(JoinRules(op, sym, e1, e2).value, env) == op.Apply(Value(e1, env), Value(e2, env))
  {
    assert sym.typ == S_BOOLEAN ==> TriOf(sym, env) != MOD;
    RulesAreSound(op, sym, e1, e2, TriOf(sym, env));
    AboutValue(sym, e1, env);
    AboutValue(sym, e2, env);
    AboutValue(sym, JoinRules(op, sym, e1, e2).value, env);
  }

  /** Whether a bool or tristate with value v is equal to the constant b. */
  predicate Matches(b: Symbol, v: Tristate) {
    (b == SYMBOL_YES && v == YES) || (b == SYMBOL_MOD && v == MOD) || (b == SYMBOL_NO && v == NO)
  }

  /** e is y, n or speaks about sym alone: bare, negated, or compared with a constant. */
  predicate About(sym: Symbol, e: Expr) {
    match e
    case Sym(s) => s == sym || IsYn(e)
    case Not(c) => c == Sym(sym)
    case Cmp(rel, a, b) => (rel == EQUAL || rel == UNEQUAL) && a == sym && (b.isConst || IsTriConst(b))
    case _ => false
  }

  /** The value of such an e as a function of sym's value v. */
  function AboutAt(sym: Symbol, e: Expr, v: Tristate): Tristate
    requires About(sym, e)
  {
    match e
    case Sym(s) => if s == SYMBOL_YES then YES else if s == SYMBOL_NO then NO else v
    case Not(_) => Not3(v)
    case Cmp(rel, _, b) => Truth((rel == EQUAL) == Matches(b, v))
  }

  lemma AboutValue(sym: Symbol, e: Expr, env: Env)
    requires About(sym, e) && sym.IsTri() && WfExpr(e) && WfEnv(env)
    ensures Value(e, env) == AboutAt(sym, e, TriOf(sym, env))
  {
    if e.Cmp? { CompareTri(e.rel, sym, e.b, env); }
  }

  /** The rules of the join functions, as truth tables over the one symbol involved. */
  lemma RulesAreSound(op: BoolOp, sym: Symbol, e1: Expr, e2: Expr, v: Tristate)
    requires sym.IsTri() && (sym.typ == S_BOOLEAN ==> v != MOD)
    requires Subject1(e1) == Subject2(e2) == Some(sym)
    requires JoinRules(op, sym, e1, e2).Some?
    ensures About(sym, e1) && About(sym, e2) && About(sym, JoinRules(op, sym, e1, e2).value)
    ensures AboutAt(sym, JoinRules(op, sym, e1, e2).value, v) == op.Apply(AboutAt(sym, e1, v), AboutAt(sym, e2, v))
  {
    if op == OR {
      OrRulesAreSound(sym, e1, e2, v);
    } else if e1.Sym? || e2.Sym? {
      BareRulesAreSound(sym, e1, e2, v);
    } else {
      CmpRulesAreSound(sym, e1, e2, v);
    }
  }

  lemma OrRulesAreSound(sym: Symbol, e1: Expr, e2: Expr, v: Tristate)
    requires sym.IsTri() && (sym.typ == S_BOOLEAN ==> v != MOD)
    requires Subject1(e1) == Subject2(e2) == Some(sym) && JoinOrRules(sym, e1, e2).Some?
    ensures About(sym, e1) && About(sym, e2) && About(sym, JoinOrRules(sym, e1, e2).value)
    ensures AboutAt(sym, JoinOrRules(sym, e1, e2).value, v) == Or3(AboutAt(sym, e1, v), AboutAt(sym, e2, v))
  {
    assert sym.typ == S_TRISTATE ==> e1.Cmp? && e2.Cmp?;
  }

  lemma BareRulesAreSound(sym: Symbol, e1: Expr, e2: Expr, v: Tristate)
    requires sym.IsTri() && (e1.Sym? || e2.Sym?)
    requires Subject1(e1) == Subject2(e2) == Some(sym) && JoinAndRules(sym, e1, e2).Some?
    ensures About(sym, e1) && About(sym, e2) && About(sym, JoinAndRules(sym, e1, e2).value)
    ensures AboutAt(sym, JoinAndRules(sym, e1, e2).value, v) == And3(AboutAt(sym, e1, v), AboutAt(sym, e2, v))
  {
    assert e1.Cmp? || e2.Cmp?;
  }

  lemma CmpRulesAreSound(sym: Symbol, e1: Expr, e2: Expr, v: Tristate)
    requires sym.IsTri() && !e1.Sym? && !e2.Sym?
    requires Subject1(e1) == Subject2(e2) == Some(sym) && JoinAndRules(sym, e1, e2).Some?
    ensures About(sym, e1) && About(sym, e2) && About(sym, JoinAndRules(sym, e1, e2).value)
    ensures AboutAt(sym, JoinAndRules(sym, e1, e2).value, v) == And3(AboutAt(sym, e1, v), AboutAt(sym, e2, v))
  {
    assert e1.Cmp? && e2.Cmp?;
  }

  /** A join is the first operand, or a new leaf; it stays well-formed. */
  lemma JoinShape(op: BoolOp, e1: Expr, e2: Expr)
    requires Join(op, e1, e2).Some?
    ensures Join(op, e1, e2).value == e1 || Join(op, e1, e2).value.Sym? || Join(op, e1, e2).value.Cmp?
    ensures WfExpr(e1) && WfExpr(e2) ==> WfExpr(Join(op, e1, e2).value)
  {
    if !ExprEq(e1, e2) { RulesShape(op, Subject1(e1).value, e1, e2); }
  }

  lemma RulesShape(op: BoolOp, sym: Symbol, e1: Expr, e2: Expr)
    requires sym.IsTri() && Subject1(e1) == Subject2(e2) == Some(sym) && JoinRules(op, sym, e1, e2).Some?
    ensures JoinRules(op, sym, e1, e2).value.Sym? || JoinRules(op, sym, e1, e2).value.Cmp?
    ensures WfExpr(e1) && WfExpr(e2) ==> WfExpr(JoinRules(op, sym, e1, e2).value)
  {
    LettersAreNotNumbers();
  }
}
