/**
 The examination of one menu entry by menu_finalize, on expression nodes: the
 whole chain from expr_trans_compare to expr_eliminate_eq.
 */
module SubmenuTest {
  import opened Tristates
  import opened Exprs
  import opened EliminateEqs
  import opened ExprNodes
  import opened ExprOptimizer
  import opened Submenus

  function ViewOpt(d: Option<Shape>): Option<Expr> {
    if d.None? then None else Some(View(d.value))
  }

  /** A possibly missing condition. */
  ghost predicate RepOpt(e: Node?, d: Option<Shape>)
    reads if d.Some? then Nodes(d.value) else {}
  {
    if d.None? then e == null else e == d.value.n && Rep(d.value)
  }

  /** expr_contains_symbol. */
  method Contains(e: Node, s: Symbol, ghost d: Shape) returns (res: bool)
    requires Rep(d) && e == d.n
    ensures res == ContainsSymbol(View(d), s)
    decreases d
  {
    Allocated(d);
    match e.kind
    case KSym => res := e.lsym == s;
    case KCmp(_) => res := e.lsym == s || e.rsym == s;
    case KNot => res := Contains(e.left, s, d.c);
    case KBin(_) =>
      res := Contains(e.left, s, d.l);
      if !res { res := Contains(e.right, s, d.r); }
  }

  /** expr_depends_symbol. */
  method Depends(e: Node, s: Symbol, ghost d: Shape) returns (res: bool)
    requires Rep(d) && e == d.n
    ensures res == DependsSymbol(View(d), s)
    decreases d
  {
    Allocated(d);
    match e.kind
    case KBin(AND) =>
      res := Depends(e.left, s, d.l);
      if !res { res := Depends(e.right, s, d.r); }
    case KSym => res := e.lsym == s;
    case KCmp(EQUAL) => res := e.lsym == s && (e.rsym == SYMBOL_YES || e.rsym == SYMBOL_MOD);
    case KCmp(UNEQUAL) => res := e.lsym == s && e.rsym == SYMBOL_NO;
    case _ => res := false;
  }

  /** expr_eliminate_dups(expr_transform(expr_trans_compare(e, E_UNEQUAL, &symbol_no))). */
  method Simplify(o: Optimizer, e: Node?, ghost d: Option<Shape>) returns (r: Node, ghost dr: Shape)
    requires RepOpt(e, d)
    modifies o
    ensures Rep(dr) && r == dr.n && fresh(Nodes(dr)) && View(dr) == Simplified(ViewOpt(d))
  {
    r, dr := CompareOpt(e, d);
    Allocated(dr);
    r, dr := TransformInPlace(r, dr);
    Allocated(dr);
    r, dr := o.EliminateDupsIn(r, dr);
  }

  /** expr_trans_compare with a possibly missing condition. */
  method CompareOpt(e: Node?, ghost d: Option<Shape>) returns (r: Node, ghost dr: Shape)
    requires RepOpt(e, d)
    ensures Rep(dr) && r == dr.n && fresh(Nodes(dr)) && View(dr) == TransCompareOpt(ViewOpt(d), UNEQUAL)
  {
    if e == null {
      r, dr := AllocSymbol(SYMBOL_NO);
      r, dr := AllocNot(r, dr);
    } else {
      r, dr := TransCompareNew(e, UNEQUAL, d.value);
    }
  }

  /**
   Whether the entry with condition e belongs into a submenu of sym. basedep is
   the simplified condition of sym; it survives the test, which works on a copy.
   */
  method Examine(o: Optimizer, sym: Symbol, basedep: Node, e: Node?, ghost db: Shape, ghost d: Option<Shape>,
                 ghost base: Option<Expr>)
      returns (res: bool)
    requires Rep(db) && basedep == db.n && View(db) == Simplified(base) && RepOpt(e, d)
    modifies o
    ensures Rep(db) && RepOpt(e, d)
    ensures res == InSubmenu(sym, base, ViewOpt(d))
  {
    Allocated(db);
    if d.Some? { Allocated(d.value); }
    if e == null { return false; }
    var contains := Contains(e, sym, d.value);
    if !contains { return false; }
    var depends := Depends(e, sym, d.value);
    if depends { return true; }
    res := Superset(o, basedep, e, db, d, base);
  }

  method Superset(o: Optimizer, basedep: Node, e: Node?, ghost db: Shape, ghost d: Option<Shape>,
                  ghost base: Option<Expr>)
      returns (res: bool)
    requires Rep(db) && basedep == db.n && View(db) == Simplified(base) && RepOpt(e, d)
    modifies o
    ensures res == (EliminateEq(Simplified(ViewOpt(d)), Simplified(base)).1 == Sym(SYMBOL_YES))
  {
    Allocated(db);
    var dep, ddep := Simplify(o, e, d);
    Allocated(ddep);
    var dep2, ddep2 := Copy(basedep, db);
    Allocated(ddep2);
    dep, dep2, ddep, ddep2 := o.EliminateEqIn(dep, dep2, ddep, ddep2);
    res := dep2.kind == KSym && dep2.lsym == SYMBOL_YES;
  }
}
