/**
 expr_contains_symbol, expr_depends_symbol, expr_trans_compare, expr_trans_bool,
 and the test by which menu_finalize makes a menu entry a submenu of a symbol.
 */
module Submenus {
  import opened Tristates
  import opened Exprs
  import opened Transforms
  import opened EliminateEqs
  import opened EliminateDups

  /** expr_contains_symbol. */
  predicate ContainsSymbol(e: Expr, s: Symbol) {
    match e
    case Sym(x) => x == s
    case Cmp(_, a, b) => a == s || b == s
    case Not(c) => ContainsSymbol(c, s)
    case Bin(_, l, r) => ContainsSymbol(l, s) || ContainsSymbol(r, s)
  }

  /** expr_depends_symbol. */
  predicate DependsSymbol(e: Expr, s: Symbol) {
    match e
    case Bin(AND, l, r) => DependsSymbol(l, s) || DependsSymbol(r, s)
    case Sym(x) => x == s
    case Cmp(EQUAL, a, b) => a == s && (b == SYMBOL_YES || b == SYMBOL_MOD)
    case Cmp(UNEQUAL, a, b) => a == s && b == SYMBOL_NO
    case _ => false
  }

  /** Two assignments that differ at s only. */
  ghost predicate AgreeExcept(s: Symbol, env: Env, env2: Env) {
    && env.modules == env2.modules
    && forall x: Symbol :: x != s ==> env.tri(x) == env2.tri(x) && env.text(x) == env2.text(x)
  }

  /** A condition that does not contain s cannot tell such assignments apart. */
  lemma {:induction false} ContainsSymbolSound(e: Expr, s: Symbol, env: Env, env2: Env)
    requires !ContainsSymbol(e, s) && AgreeExcept(s, env, env2)
    ensures Value(e, env) == Value(e, env2)
  {
    match e
    case Not(c) => ContainsSymbolSound(c, s, env, env2);
    case Bin(_, l, r) => ContainsSymbolSound(l, s, env, env2); ContainsSymbolSound(r, s, env, env2);
    case Cmp(_, a, b) => assert TextOf(a, env) == TextOf(a, env2) && TextOf(b, env) == TextOf(b, env2);
    case _ =>
  }

  /** A condition that depends on the bool or tristate s is n whenever s is n. */
  lemma {:induction false} DependsSymbolSound(e: Expr, s: Symbol, env: Env)
    requires DependsSymbol(e, s) && s.IsTri() && WfEnv(env) && TriOf(s, env) == NO
    ensures Value(e, env) == NO
  {
    match e
    case Bin(_, l, r) =>
      if DependsSymbol(l, s) { DependsSymbolSound(l, s, env); } else { DependsSymbolSound(r, s, env); }
    case Cmp(rel, a, b) => CompareTri(rel, a, b, env);
    case _ =>
  }

  /** The other relation of the two that expr_trans_compare inserts. */
  function Flip(rel: RelOp): RelOp { if rel == EQUAL then UNEQUAL else EQUAL }

  function NegateIf(b: bool, e: Expr): Expr { if b then Not(e) else e }

  /** expr_trans_compare with type rel (EQUAL or UNEQUAL) and target symbol n. */
  function TransCompare(e: Expr, rel: RelOp): Expr {
    match e
    case Bin(op, l, r) =>
      NegateIf(rel == UNEQUAL, Bin(op.Dual(), TransCompare(l, EQUAL), TransCompare(r, EQUAL)))
    case Not(c) => TransCompare(c, Flip(rel))
    case Cmp(_, _, _) => NegateIf(rel == EQUAL, e)
    case Sym(s) => Cmp(rel, s, SYMBOL_NO)
  }

  function TransCompareOpt(e: Option<Expr>, rel: RelOp): Expr {
    if e.None? then NegateIf(rel == UNEQUAL, Sym(SYMBOL_NO)) else TransCompare(e.value, rel)
  }

  /** A symbol that reads n has the text "n", so that comparing it with n tells what its value is. */
  predicate LeafOk(s: Symbol, env: Env) { TriOf(s, env) == NO ==> TextOf(s, env) == "n" }

  /**
   The symbols that stand alone in e, under an even number of negations if even is set and an odd one else, are such.
   */
  predicate LeavesOk(e: Expr, even: bool, env: Env) {
    match e
    case Sym(s) => even ==> LeafOk(s, env)
    case Not(c) => LeavesOk(c, !even, env)
    case Bin(_, l, r) => LeavesOk(l, even, env) && LeavesOk(r, even, env)
    case Cmp(_, _, _) => true
  }

  lemma SymAgainstNo(s: Symbol, env: Env)
    ensures Compare(EQUAL, s, SYMBOL_NO, env) == Truth(TextOf(s, env) == "n")
    ensures Compare(UNEQUAL, s, SYMBOL_NO, env) == Truth(TextOf(s, env) != "n")
    ensures WfEnv(env) && TriOf(s, env) != NO ==> TextOf(s, env) != "n"
  {
    LettersAreNotNumbers();
  }

  /** The comparison e != n is at most, or e = n at least, what it should be. */
  predicate BoundedAbove(e: Expr, rel: RelOp, env: Env) {
    var v := Value(TransCompare(e, rel), env);
    if rel == UNEQUAL then v <= Truth(Value(e, env) != NO) else Truth(Value(e, env) == NO) <= v
  }

  /** The comparison e != n is at least e = y, or e = n at most e != y. */
  predicate BoundedBelow(e: Expr, rel: RelOp, env: Env) {
    var v := Value(TransCompare(e, rel), env);
    if rel == UNEQUAL then Truth(Value(e, env) == YES) <= v else v <= Truth(Value(e, env) != YES)
  }

  /**
   What expr_trans_compare guarantees: e != n becomes something between e = y and
   e != n, and e = n something between e = n and e != y. Negations are why it is
   not exact: a negated m counts as n on one side only. Each bound rests on the
   symbols of one polarity.
   */
  lemma {:induction false} TransCompareSandwich(e: Expr, rel: RelOp, env: Env)
    requires WfEnv(env) && (rel == EQUAL || rel == UNEQUAL)
    ensures Value(TransCompare(e, rel), env) == NO || Value(TransCompare(e, rel), env) == YES
    ensures LeavesOk(e, true, env) ==> BoundedAbove(e, rel, env)
    ensures LeavesOk(e, false, env) ==> BoundedBelow(e, rel, env)
  {
    match e
    case Sym(s) => SymAgainstNo(s, env);
    case Not(c) => TransCompareSandwich(c, Flip(rel), env);
    case Bin(op, l, r) => TransCompareSandwich(l, EQUAL, env); TransCompareSandwich(r, EQUAL, env);
    case Cmp(_, _, _) =>
  }

  /** Whether no symbol standing alone in e is m. */
  predicate NoMod(e: Expr, env: Env) {
    match e
    case Sym(s) => TriOf(s, env) != MOD
    case Not(c) => NoMod(c, env)
    case Bin(_, l, r) => NoMod(l, env) && NoMod(r, env)
    case Cmp(_, _, _) => true
  }

  /** Where no symbol is m the value is n or y, so the sandwich closes and the comparison is exact. */
  lemma {:induction false} TransCompareExact(e: Expr, rel: RelOp, env: Env)
    requires LeavesOk(e, true, env) && LeavesOk(e, false, env) && WfEnv(env) && NoMod(e, env) &&
      (rel == EQUAL || rel == UNEQUAL)
    ensures Value(TransCompare(e, rel), env) == Truth((rel == EQUAL) == (Value(e, env) == NO))
  {
    NoModValue(e, env);
    TransCompareSandwich(e, rel, env);
  }

  lemma {:induction false} NoModValue(e: Expr, env: Env)
    requires NoMod(e, env)
    ensures Value(e, env) != MOD
  {
    match e
    case Not(c) => NoModValue(c, env);
    case Bin(_, l, r) => NoModValue(l, env); NoModValue(r, env);
    case _ =>
  }

  /** Not exact in general: !A with A = m is m, but A = n is false. */
  lemma TransCompareInexact(a: Symbol, env: Env)
    requires a.typ == S_TRISTATE && WfEnv(env) && env.tri(a) == MOD
    ensures Value(Not(Sym(a)), env) != NO && Value(TransCompare(Not(Sym(a)), UNEQUAL), env) == NO
  {
    SymAgainstNo(a, env);
  }

  /** No symbol standing alone is of type S_OTHER. */
  predicate NoOther(e: Expr) {
    match e
    case Sym(s) => s.typ != S_OTHER
    case Not(c) => NoOther(c)
    case Bin(_, l, r) => NoOther(l) && NoOther(r)
    case Cmp(_, _, _) => true
  }

  lemma {:induction false} TransCompareWf(e: Expr, rel: RelOp)
    requires WfExpr(e) && NoOther(e)
    ensures WfExpr(TransCompare(e, rel))
  {
    match e
    case Not(c) => TransCompareWf(c, Flip(rel));
    case Bin(_, l, r) => TransCompareWf(l, EQUAL); TransCompareWf(r, EQUAL);
    case _ =>
  }

  /** The comparison form in which menu_finalize examines a condition. */
  function Simplified(e: Option<Expr>): Expr {
    EliminateDups.EliminateDups(Transform(TransCompareOpt(e, UNEQUAL)))
  }

  /**
   The test of menu_finalize: does an entry whose condition is child, following
   sym whose own condition is base, belong into a submenu of sym?
   */
  predicate InSubmenu(sym: Symbol, base: Option<Expr>, child: Option<Expr>) {
    && child.Some?
    && ContainsSymbol(child.value, sym)
    && (DependsSymbol(child.value, sym)
        || EliminateEq(Simplified(child), Simplified(base)).1 == Sym(SYMBOL_YES))
  }

  predicate WfCondition(e: Option<Expr>) { e.Some? ==> WfExpr(e.value) && NoOther(e.value) }

  lemma SimplifiedKeepsValue(e: Option<Expr>, env: Env)
    requires WfCondition(e) && WfEnv(env)
    ensures Value(Simplified(e), env) == Value(TransCompareOpt(e, UNEQUAL), env)
  {
    var c := TransCompareOpt(e, UNEQUAL);
    if e.Some? { TransCompareWf(e.value, UNEQUAL); }
    TransformKeepsValue(c, env);
    TransformWf(c);
    EliminateDupsKeepsValue(Transform(c), env);
  }

  predicate LeavesOkOpt(e: Option<Expr>, even: bool, env: Env) { e.Some? ==> LeavesOk(e.value, even, env) }

  /**
   The submenu test is sound, end to end through trans_compare, transform,
   eliminate_dups and eliminate_eq: an entry that is y has a parent that is
   visible, or depends on the parent symbol itself; where no symbol is m this
   holds already for entries that are not n. Symbols that are neither bool nor
   tristate stand in the way where they have another text than "n", but only
   under negations in the condition of the entry, and outside them in that of
   the parent.
   */
  lemma SubmenuSound(sym: Symbol, base: Option<Expr>, child: Option<Expr>, env: Env)
    requires WfCondition(base) && WfCondition(child) && WfEnv(env)
    requires InSubmenu(sym, base, child)
    ensures sym.IsTri() && DependsSymbol(child.value, sym) && ValueOpt(child, env) != NO ==> TriOf(sym, env) != NO
    ensures !DependsSymbol(child.value, sym) && LeavesOkOpt(child, false, env) && LeavesOkOpt(base, true, env) ==>
      && (ValueOpt(child, env) == YES ==> ValueOpt(base, env) != NO)
      && (NoMod(child.value, env) && ValueOpt(child, env) != NO ==> ValueOpt(base, env) != NO)
  {
    if DependsSymbol(child.value, sym) {
      if sym.IsTri() && TriOf(sym, env) == NO { DependsSymbolSound(child.value, sym, env); }
    } else {
      EliminateEqResidual(Simplified(child), Simplified(base), env);
      SimplifiedKeepsValue(child, env);
      SimplifiedKeepsValue(base, env);
      TransCompareSandwich(child.value, UNEQUAL, env);
      if base.Some? { TransCompareSandwich(base.value, UNEQUAL, env); }
      if NoMod(child.value, env) { NoModValue(child.value, env); }
    }
  }

  /** expr_trans_bool: a tristate FOO != n becomes FOO. */
  function TransBool(e: Expr): Expr {
    match e
    case Not(c) => Not(TransBool(c))
    case Bin(op, l, r) => Bin(op, TransBool(l), TransBool(r))
    case Cmp(rel, a, b) => if rel == UNEQUAL && a.typ == S_TRISTATE && b == SYMBOL_NO then Sym(a) else e
    case Sym(_) => e
  }

  /** On negation normal forms expr_trans_bool may lower y to m, but it does not change whether the value is n. */
  lemma {:induction false} TransBoolKeepsVisibility(e: Expr, env: Env)
    requires Nnf(e) && WfEnv(env)
    ensures Value(TransBool(e), env) <= Value(e, env)
    ensures Value(TransBool(e), env) == NO <==> Value(e, env) == NO
  {
    match e
    case Bin(_, l, r) => TransBoolKeepsVisibility(l, env); TransBoolKeepsVisibility(r, env);
    case Cmp(rel, a, b) => if a.typ == S_TRISTATE && b == SYMBOL_NO { CompareTri(rel, a, b, env); }
    case _ =>
  }

  lemma {:induction false} TransBoolKeepsForm(e: Expr)
    requires Nnf(e) && WfExpr(e)
    ensures Nnf(TransBool(e)) && WfExpr(TransBool(e))
  {
    match e
    case Bin(_, l, r) => TransBoolKeepsForm(l); TransBoolKeepsForm(r);
    case _ =>
  }

  /** Under a negation it would: the normal form is needed. */
  lemma TransBoolNeedsNormal(a: Symbol, env: Env)
    requires a.typ == S_TRISTATE && WfEnv(env) && env.tri(a) == MOD
    ensures var e := Not(Cmp(UNEQUAL, a, SYMBOL_NO));
      !Nnf(e) && Value(e, env) == NO && Value(TransBool(e), env) == MOD
  {
    CompareTri(UNEQUAL, a, SYMBOL_NO, env);
  }
}
