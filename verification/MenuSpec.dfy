/**
 menu_finalize as a function on the forest of menu nodes: propagation of
 dependencies, automatic submenus and flattening. Expressions are values here;
 the same operations on expression nodes are in ExprOptimizer and SubmenuTest.
 */
module MenuSpec {
  import opened Tristates
  import opened Exprs
  import opened Transforms
  import opened EliminateDups
  import opened Submenus
  import opened MenuTree

  /** rewrite_m: m becomes m && MODULES. */
  function RewriteM(e: Expr, modulesSym: Symbol): Expr {
    match e
    case Not(c) => Not(RewriteM(c, modulesSym))
    case Bin(op, l, r) => Bin(op, RewriteM(l, modulesSym), RewriteM(r, modulesSym))
    case Sym(s) => if s == SYMBOL_MOD then Bin(AND, e, Sym(modulesSym)) else e
    case Cmp(_, _, _) => e
  }

  /** expr_alloc_and: a missing operand is y. */
  function AndOpt(a: Option<Expr>, b: Option<Expr>): Option<Expr> {
    if a.None? then b else if b.None? then a else Some(Bin(AND, a.value, b.value))
  }

  /** A condition of a child or of a property, under the condition above it. */
  function Under(above: Option<Expr>, own: Option<Expr>, modulesSym: Symbol): Option<Expr> {
    var e := AndOpt(above, if own.None? then None else Some(Transform(RewriteM(own.value, modulesSym))));
    if e.None? then None else Some(EliminateDups.EliminateDups(e.value))
  }

  /** The condition of a property; a symbol that is not tristate has no use for m. */
  function PropCond(dep: Option<Expr>, own: Option<Expr>, sym: Option<Symbol>, modulesSym: Symbol): Option<Expr> {
    var e := Under(dep, own, modulesSym);
    if e.Some? && sym.Some? && sym.value.typ != S_TRISTATE then Some(TransBool(e.value)) else e
  }

  /** What a node inherits from the condition above it. */
  function Propagate(d: MenuData, above: Option<Expr>, modulesSym: Symbol): (r: MenuData)
    ensures r.sym == d.sym && r.isChoice == d.isChoice && r.choice == d.choice
    ensures HasText(r) == HasText(d) && |r.props| == |d.props|
  {
    var dep := Under(above, d.dep, modulesSym);
    d.(dep := dep,
       prompt := if d.prompt.None? then None
         else Some(d.prompt.value.(cond := PropCond(dep, d.prompt.value.cond, d.sym, modulesSym))),
       props := PropagateProps(d.props, dep, d.sym, modulesSym))
  }

  function PropagateProps(ps: seq<Prop>, dep: Option<Expr>, sym: Option<Symbol>, modulesSym: Symbol): (r: seq<Prop>)
    ensures |r| == |ps|
  {
    if ps == [] then []
    else [ps[0].(cond := PropCond(dep, ps[0].cond, sym, modulesSym))] + PropagateProps(ps[1..], dep, sym, modulesSym)
  }

  predicate HasText(d: MenuData) { d.prompt.Some? && d.prompt.value.hasText }

  /** What a node hands down: a choice its symbol, a menu the condition of its prompt, an if its dependency. */
  function HandsDown(d: MenuData): Option<Expr> {
    if d.sym.Some? && d.isChoice then Some(Sym(d.sym.value))
    else if d.prompt.Some? then d.prompt.value.cond
    else d.dep
  }

  /** The condition by which a following entry is examined for a submenu. */
  function Examined(d: MenuData): Option<Expr> { if d.prompt.Some? then d.prompt.value.cond else d.dep }

  predicate Belongs(sym: Symbol, parent: MenuData, d: MenuData) {
    InSubmenu(sym, if parent.prompt.Some? then parent.prompt.value.cond else None, Examined(d))
  }

  /**
   How conditions are inherited and which entries belong into a submenu. The restructuring is the same for all rules.
   */
  datatype Rules = Rules(inherit: (MenuData, Option<Expr>) -> MenuData, belongs: (Symbol, MenuData, MenuData) -> bool)

  /** The rules of menu_finalize. */
  function RulesOf(modulesSym: Symbol): Rules {
    Rules((d: MenuData, above: Option<Expr>) => Propagate(d, above, modulesSym), Belongs)
  }

  /**
   What menu_finalize does to symbols, in order: a symbol becomes a value of a
   choice, and another condition is added to rev_dep or implied of a symbol.
   */
  datatype Effect =
    | Claims(choice: Symbol, value: Symbol)
    | Selects(target: nat, when: Expr)
    | Implies(target: nat, when: Expr)

  /** SYMBOL_CHOICEVAL of the symbol. */
  predicate Claimed(es: seq<Effect>, s: Symbol) {
    exists e | e in es :: e.Claims? && e.value == s
  }

  /** selector && condition, as it is added to the symbol that is selected or implied. */
  function WhenSet(selector: Symbol, cond: Option<Expr>): Expr {
    if cond.None? then Sym(selector) else Bin(AND, Sym(selector), cond.value)
  }

  function PropEffect(sym: Option<Symbol>, p: Prop): seq<Effect> {
    if sym.None? then []
    else match p.kind
      case SelectProp(target) => [Selects(target, WhenSet(sym.value, p.cond))]
      case ImplyProp(target) => [Implies(target, WhenSet(sym.value, p.cond))]
      case _ => []
  }

  function PropEffects(sym: Option<Symbol>, ps: seq<Prop>): seq<Effect> {
    if ps == [] then [] else PropEffect(sym, ps[0]) + PropEffects(sym, ps[1..])
  }

  lemma {:induction false} PropEffectsSnoc(sym: Option<Symbol>, ps: seq<Prop>, p: Prop)
    ensures PropEffects(sym, ps + [p]) == PropEffects(sym, ps) + PropEffect(sym, p)
  {
    if ps == [] {
      assert [] + [p] == [p] && [p][1..] == [];
    } else {
      PropEffectsSnoc(sym, ps[1..], p);
      assert (ps + [p])[1..] == ps[1..] + [p];
    }
  }

  lemma {:induction false} PropagatePropsAt(ps: seq<Prop>, dep: Option<Expr>, sym: Option<Symbol>, m: Symbol, n: nat)
    requires n < |ps|
    ensures PropagateProps(ps, dep, sym, m)[n] == ps[n].(cond := PropCond(dep, ps[n].cond, sym, m))
  {
    if n > 0 { PropagatePropsAt(ps[1..], dep, sym, m, n - 1); }
  }

  /** The selects and implies of an entry, whose conditions have been inherited. */
  function Requests(d: MenuData): seq<Effect> { PropEffects(d.sym, d.props) }

  /** What menu_finalize adds at its end: a choice that is not optional is at least m where it is visible. */
  function Forced(d: MenuData): seq<Effect> {
    if d.sym.None? || d.isOptional || d.prompt.None? then []
    else
      var cond := d.prompt.value.cond;
      [Selects(d.sym.value.id, if cond.None? then Sym(SYMBOL_MOD) else Bin(AND, cond.value, Sym(SYMBOL_MOD)))]
  }

  /** The condition that the choice is y, above another one. */
  function Strict(choice: Symbol, cond: Option<Expr>): Option<Expr> {
    AndOpt(Some(Cmp(EQUAL, choice, SYMBOL_YES)), cond)
  }

  function StrictProps(choice: Symbol, ps: seq<Prop>): (r: seq<Prop>)
    ensures |r| == |ps|
  {
    if ps == [] then [] else [ps[0].(cond := Strict(choice, ps[0].cond))] + StrictProps(choice, ps[1..])
  }

  /** A value of a tristate choice that is no tristate itself. */
  predicate NeedsYes(d: MenuData, choice: Symbol) {
    choice.typ == S_TRISTATE && d.sym.Some? && d.sym.value.typ != S_TRISTATE
  }

  /** An entry that has become a value of the choice. */
  function Claim(d: MenuData, choice: Symbol): (r: MenuData)
    ensures HasText(r) == HasText(d)
  {
    if NeedsYes(d, choice) then
      d.(dep := Strict(choice, d.dep),
         prompt := if d.prompt.None? then None else Some(d.prompt.value.(cond := Strict(choice, d.prompt.value.cond))),
         props := StrictProps(choice, d.props), choice := Some(choice))
    else d.(choice := Some(choice))
  }

  /** Whether the last loop makes the entry a value of the node that it is called on. */
  predicate Becomes(parent: MenuData, d: MenuData, es: seq<Effect>) {
    parent.sym.Some? && parent.isChoice && d.sym.Some? && !Claimed(es, d.sym.value)
  }

  function Mark(parent: MenuData, d: MenuData, es: seq<Effect>): (r: MenuData)
    ensures HasText(r) == HasText(d)
  {
    if Becomes(parent, d, es) then Claim(d, parent.sym.value) else d
  }

  function AfterMark(parent: MenuData, d: MenuData, es: seq<Effect>): (r: seq<Effect>)
    ensures es <= r
  {
    if Becomes(parent, d, es) then es + [Claims(parent.sym.value, d.sym.value)] else es
  }

  /** The first half of what the last loop does, for a list of entries. */
  function MarkAll(parent: MenuData, f: Forest, es: seq<Effect>): (r: Forest)
    ensures r.Size() == f.Size() && r.Head() == f.Head()
  {
    if f.Nil? then Nil
    else Cons(f.node, Mark(parent, f.data, es), f.kids, MarkAll(parent, f.rest, AfterMark(parent, f.data, es)))
  }

  function AfterMarkAll(parent: MenuData, f: Forest, es: seq<Effect>): (r: seq<Effect>)
    ensures es <= r
  {
    if f.Nil? then es else AfterMarkAll(parent, f.rest, AfterMark(parent, f.data, es))
  }

  lemma {:induction false} MarkKeeps(parent: MenuData, f: Forest, es: seq<Effect>)
    ensures MarkAll(parent, f, es).Preorder() == f.Preorder() && MarkAll(parent, f, es).Nodes() == f.Nodes()
  {
    if f.Cons? { MarkKeeps(parent, f.rest, AfterMark(parent, f.data, es)); }
  }

  /** The first loop over the children. */
  function PropagateAll(f: Forest, above: Option<Expr>, rules: Rules): (r: Forest)
    ensures r.Size() == f.Size() && r.Head() == f.Head()
  {
    if f.Nil? then Nil
    else Cons(f.node, rules.inherit(f.data, above), f.kids, PropagateAll(f.rest, above, rules))
  }

  /** What that loop adds to the symbols. */
  function AfterPropagate(f: Forest, above: Option<Expr>, rules: Rules, es: seq<Effect>): (r: seq<Effect>)
    ensures es <= r
  {
    if f.Nil? then es else AfterPropagate(f.rest, above, rules, es + Requests(rules.inherit(f.data, above)))
  }

  function Append(f: Forest, g: Forest): (r: Forest)
    ensures r.Size() == f.Size() + g.Size()
  {
    if f.Nil? then g else Cons(f.node, f.data, f.kids, Append(f.rest, g))
  }

  lemma {:induction false} AppendPreorder(f: Forest, g: Forest)
    ensures Append(f, g).Preorder() == f.Preorder() + g.Preorder()
  {
    if f.Cons? {
      AppendPreorder(f.rest, g);
      Regroup2(f.node, f.kids.Preorder(), f.rest.Preorder(), g.Preorder(), f.rest.Preorder() + g.Preorder());
    }
  }

  lemma {:induction false} AppendNodes(f: Forest, g: Forest)
    ensures Append(f, g).Nodes() == f.Nodes() + g.Nodes()
  {
    if f.Cons? { AppendNodes(f.rest, g); }
  }

  /** Flattening: the children of an entry without prompt text follow it. */
  function Flatten(f: Forest): (r: Forest)
    ensures r.Size() == f.Size() && r.Head() == f.Head()
    decreases f.Size()
  {
    if f.Nil? then Nil
    else if f.kids.Cons? && !HasText(f.data) then Cons(f.node, f.data, Nil, Flatten(Append(f.kids, f.rest)))
    else Cons(f.node, f.data, f.kids, Flatten(f.rest))
  }

  lemma {:induction false} FlattenKeepsPreorder(f: Forest)
    ensures Flatten(f).Preorder() == f.Preorder()
    decreases f.Size()
  {
    if f.Cons? {
      if f.kids.Cons? && !HasText(f.data) {
        FlattenKeepsPreorder(Append(f.kids, f.rest));
        AppendPreorder(f.kids, f.rest);
        Regroup(f.node, f.kids.Preorder(), f.rest.Preorder(), f.kids.Preorder() + f.rest.Preorder());
      } else {
        FlattenKeepsPreorder(f.rest);
      }
    }
  }

  lemma {:induction false} FlattenKeepsNodes(f: Forest)
    ensures Flatten(f).Nodes() == f.Nodes()
    decreases f.Size()
  {
    if f.Cons? {
      if f.kids.Cons? && !HasText(f.data) {
        FlattenKeepsNodes(Append(f.kids, f.rest));
        AppendNodes(f.kids, f.rest);
      } else {
        FlattenKeepsNodes(f.rest);
      }
    }
  }

  /** menu_finalize on the first node of f; it may take siblings that follow as its children. */
  function Finalize(f: Forest, rules: Rules, es: seq<Effect>): (r: Forest)
    requires f.Cons?
    ensures r.Cons? && r.node == f.node && r.data == f.data && r.Size() == f.Size()
    decreases f.Size(), 0
  {
    if f.kids.Cons? then
      var kids, es1 := PropagateAll(f.kids, HandsDown(f.data), rules),
        AfterPropagate(f.kids, HandsDown(f.data), rules, es);
      Cons(f.node, f.data, MarkAll(f.data, Flatten(FinalizeAll(kids, rules, es1)), AfterAll(kids, rules, es1)), f.rest)
    else if f.data.sym.Some? then
      var (taken, left) := Absorb(f.data.sym.value, f.data, f.rest, rules, es);
      Cons(f.node, f.data, MarkAll(f.data, Flatten(taken), AfterAbsorb(f.data.sym.value, f.data, f.rest, rules, es)),
        left)
    else f
  }

  /** What it has done to symbols after all that es says. */
  function AfterFinalize(f: Forest, rules: Rules, es: seq<Effect>): (r: seq<Effect>)
    requires f.Cons?
    ensures es <= r
    decreases f.Size(), 0
  {
    if f.kids.Cons? then
      var kids, es1 := PropagateAll(f.kids, HandsDown(f.data), rules),
        AfterPropagate(f.kids, HandsDown(f.data), rules, es);
      AfterMarkAll(f.data, Flatten(FinalizeAll(kids, rules, es1)), AfterAll(kids, rules, es1)) + Forced(f.data)
    else if f.data.sym.Some? then
      var (taken, _) := Absorb(f.data.sym.value, f.data, f.rest, rules, es);
      AfterMarkAll(f.data, Flatten(taken), AfterAbsorb(f.data.sym.value, f.data, f.rest, rules, es)) + Forced(f.data)
    else es
  }

  /** menu_finalize on every node of a list. */
  function FinalizeAll(f: Forest, rules: Rules, es: seq<Effect>): (r: Forest)
    ensures r.Size() == f.Size() && r.Head() == f.Head()
    decreases f.Size(), 1
  {
    if f.Nil? then Nil
    else
      var g := Finalize(f, rules, es);
      Cons(g.node, g.data, g.kids, FinalizeAll(g.rest, rules, AfterFinalize(f, rules, es)))
  }

  function AfterAll(f: Forest, rules: Rules, es: seq<Effect>): (r: seq<Effect>)
    ensures es <= r
    decreases f.Size(), 1
  {
    if f.Nil? then es else AfterAll(Finalize(f, rules, es).rest, rules, AfterFinalize(f, rules, es))
  }

  /** The loop that takes consecutive siblings, finalizing each; and the siblings that are left. */
  function Absorb(sym: Symbol, parent: MenuData, f: Forest, rules: Rules, es: seq<Effect>): (r: (Forest, Forest))
    ensures r.0.Size() + r.1.Size() == f.Size()
    decreases f.Size(), 1
  {
    if f.Cons? && rules.belongs(sym, parent, f.data) then
      var g := Finalize(f, rules, es);
      var (taken, left) := Absorb(sym, parent, g.rest, rules, AfterFinalize(f, rules, es));
      (Cons(g.node, g.data, g.kids, taken), left)
    else (Nil, f)
  }

  function AfterAbsorb(sym: Symbol, parent: MenuData, f: Forest, rules: Rules, es: seq<Effect>): (r: seq<Effect>)
    ensures es <= r
    decreases f.Size(), 1
  {
    if f.Cons? && rules.belongs(sym, parent, f.data)
    then AfterAbsorb(sym, parent, Finalize(f, rules, es).rest, rules, AfterFinalize(f, rules, es))
    else es
  }

  lemma {:induction false} PropagateKeeps(f: Forest, above: Option<Expr>, rules: Rules)
    ensures PropagateAll(f, above, rules).Preorder() == f.Preorder() &&
      PropagateAll(f, above, rules).Nodes() == f.Nodes()
  {
    if f.Cons? { PropagateKeeps(f.rest, above, rules); }
  }

  lemma {:induction false} FinalizeKeepsNodes(f: Forest, rules: Rules, es: seq<Effect>)
    requires f.Cons?
    ensures Finalize(f, rules, es).Nodes() == f.Nodes()
    decreases f.Size(), 0
  {
    if f.kids.Cons? {
      var kids, es1 := PropagateAll(f.kids, HandsDown(f.data), rules),
        AfterPropagate(f.kids, HandsDown(f.data), rules, es);
      PropagateKeeps(f.kids, HandsDown(f.data), rules);
      FinalizeAllKeepsNodes(kids, rules, es1);
      FlattenKeepsNodes(FinalizeAll(kids, rules, es1));
      MarkKeeps(f.data, Flatten(FinalizeAll(kids, rules, es1)), AfterAll(kids, rules, es1));
    } else if f.data.sym.Some? {
      var (taken, _) := Absorb(f.data.sym.value, f.data, f.rest, rules, es);
      AbsorbKeepsNodes(f.data.sym.value, f.data, f.rest, rules, es);
      FlattenKeepsNodes(taken);
      MarkKeeps(f.data, Flatten(taken), AfterAbsorb(f.data.sym.value, f.data, f.rest, rules, es));
    }
  }

  lemma {:induction false} FinalizeAllKeepsNodes(f: Forest, rules: Rules, es: seq<Effect>)
    ensures FinalizeAll(f, rules, es).Nodes() == f.Nodes()
    decreases f.Size(), 1
  {
    if f.Cons? {
      FinalizeKeepsNodes(f, rules, es);
      FinalizeAllKeepsNodes(Finalize(f, rules, es).rest, rules, AfterFinalize(f, rules, es));
    }
  }

  lemma {:induction false} AbsorbKeepsNodes(sym: Symbol, parent: MenuData, f: Forest, rules: Rules, es: seq<Effect>)
    ensures Absorb(sym, parent, f, rules, es).0.Nodes() + Absorb(sym, parent, f, rules, es).1.Nodes() == f.Nodes()
    decreases f.Size(), 1
  {
    if f.Cons? && rules.belongs(sym, parent, f.data) {
      FinalizeKeepsNodes(f, rules, es);
      AbsorbKeepsNodes(sym, parent, Finalize(f, rules, es).rest, rules, AfterFinalize(f, rules, es));
    }
  }

  lemma Regroup<T>(x: T, a: seq<T>, b: seq<T>, c: seq<T>)
    requires a + b == c
    ensures [x] + a + b == [x] + [] + c
    ensures [x] + a + b == [x] + c
  {
  }

  lemma Regroup2<T>(x: T, k: seq<T>, a: seq<T>, b: seq<T>, c: seq<T>)
    requires a + b == c
    ensures [x] + k + a + b == [x] + k + c
  {
  }

  /** The nodes keep their order in the file, whatever is restructured. */
  lemma {:induction false} FinalizeKeepsPreorder(f: Forest, rules: Rules, es: seq<Effect>)
    requires f.Cons?
    ensures Finalize(f, rules, es).Preorder() == f.Preorder()
    decreases f.Size(), 0
  {
    if f.kids.Cons? {
      var kids, es1 := PropagateAll(f.kids, HandsDown(f.data), rules),
        AfterPropagate(f.kids, HandsDown(f.data), rules, es);
      PropagateKeeps(f.kids, HandsDown(f.data), rules);
      FinalizeAllKeepsPreorder(kids, rules, es1);
      FlattenKeepsPreorder(FinalizeAll(kids, rules, es1));
      MarkKeeps(f.data, Flatten(FinalizeAll(kids, rules, es1)), AfterAll(kids, rules, es1));
    } else if f.data.sym.Some? {
      var (taken, left) := Absorb(f.data.sym.value, f.data, f.rest, rules, es);
      AbsorbKeepsPreorder(f.data.sym.value, f.data, f.rest, rules, es);
      FlattenKeepsPreorder(taken);
      MarkKeeps(f.data, Flatten(taken), AfterAbsorb(f.data.sym.value, f.data, f.rest, rules, es));
      Regroup(f.node, taken.Preorder(), left.Preorder(), f.rest.Preorder());
    }
  }

  lemma {:induction false} FinalizeAllKeepsPreorder(f: Forest, rules: Rules, es: seq<Effect>)
    ensures FinalizeAll(f, rules, es).Preorder() == f.Preorder()
    decreases f.Size(), 1
  {
    if f.Cons? {
      FinalizeKeepsPreorder(f, rules, es);
      FinalizeAllKeepsPreorder(Finalize(f, rules, es).rest, rules, AfterFinalize(f, rules, es));
    }
  }

  lemma {:induction false} AbsorbKeepsPreorder(sym: Symbol, parent: MenuData, f: Forest, rules: Rules, es: seq<Effect>)
    ensures Absorb(sym, parent, f, rules, es).0.Preorder() + Absorb(sym, parent, f, rules, es).1.Preorder() ==
      f.Preorder()
    decreases f.Size(), 1
  {
    if f.Cons? && rules.belongs(sym, parent, f.data) {
      var g, es2 := Finalize(f, rules, es), AfterFinalize(f, rules, es);
      FinalizeKeepsPreorder(f, rules, es);
      AbsorbKeepsPreorder(sym, parent, g.rest, rules, es2);
      var (taken, left) := Absorb(sym, parent, g.rest, rules, es2);
      Regroup2(g.node, g.kids.Preorder(), taken.Preorder(), left.Preorder(), g.rest.Preorder());
    }
  }

  /** The nodes that menu_finalize is called on, in order. */
  function Log(f: Forest, rules: Rules, es: seq<Effect>): seq<Menu>
    requires f.Cons?
    decreases f.Size(), 0
  {
    [f.node] +
    if f.kids.Cons? then
      LogAll(PropagateAll(f.kids, HandsDown(f.data), rules), rules,
        AfterPropagate(f.kids, HandsDown(f.data), rules, es))
    else if f.data.sym.Some? then LogAbsorb(f.data.sym.value, f.data, f.rest, rules, es)
    else []
  }

  function LogAll(f: Forest, rules: Rules, es: seq<Effect>): seq<Menu>
    decreases f.Size(), 1
  {
    if f.Nil? then [] else Log(f, rules, es) + LogAll(Finalize(f, rules, es).rest, rules, AfterFinalize(f, rules, es))
  }

  function LogAbsorb(sym: Symbol, parent: MenuData, f: Forest, rules: Rules, es: seq<Effect>): seq<Menu>
    decreases f.Size(), 1
  {
    if f.Cons? && rules.belongs(sym, parent, f.data)
    then Log(f, rules, es) + LogAbsorb(sym, parent, Finalize(f, rules, es).rest, rules, AfterFinalize(f, rules, es))
    else []
  }

  /** It is called once on every node that ends up in the subtree, parents first. */
  lemma {:induction false} LogIsPreorder(f: Forest, rules: Rules, es: seq<Effect>)
    requires f.Cons?
    ensures Log(f, rules, es) == [f.node] + Finalize(f, rules, es).kids.Preorder()
    decreases f.Size(), 0
  {
    if f.kids.Cons? {
      var kids, es1 := PropagateAll(f.kids, HandsDown(f.data), rules),
        AfterPropagate(f.kids, HandsDown(f.data), rules, es);
      LogAllIsPreorder(kids, rules, es1);
      FlattenKeepsPreorder(FinalizeAll(kids, rules, es1));
      MarkKeeps(f.data, Flatten(FinalizeAll(kids, rules, es1)), AfterAll(kids, rules, es1));
    } else if f.data.sym.Some? {
      var (taken, _) := Absorb(f.data.sym.value, f.data, f.rest, rules, es);
      LogAbsorbIsPreorder(f.data.sym.value, f.data, f.rest, rules, es);
      FlattenKeepsPreorder(taken);
      MarkKeeps(f.data, Flatten(taken), AfterAbsorb(f.data.sym.value, f.data, f.rest, rules, es));
    }
  }

  lemma {:induction false} LogAllIsPreorder(f: Forest, rules: Rules, es: seq<Effect>)
    ensures LogAll(f, rules, es) == FinalizeAll(f, rules, es).Preorder()
    decreases f.Size(), 1
  {
    if f.Cons? {
      LogIsPreorder(f, rules, es);
      LogAllIsPreorder(Finalize(f, rules, es).rest, rules, AfterFinalize(f, rules, es));
    }
  }

  lemma {:induction false} LogAbsorbIsPreorder(sym: Symbol, parent: MenuData, f: Forest, rules: Rules, es: seq<Effect>)
    ensures LogAbsorb(sym, parent, f, rules, es) == Absorb(sym, parent, f, rules, es).0.Preorder()
    decreases f.Size(), 1
  {
    if f.Cons? && rules.belongs(sym, parent, f.data) {
      LogIsPreorder(f, rules, es);
      LogAbsorbIsPreorder(sym, parent, Finalize(f, rules, es).rest, rules, AfterFinalize(f, rules, es));
    }
  }

  /** No node in the forest has children but no prompt text. */
  predicate Tidy(f: Forest) {
    f.Cons? ==> (f.kids.Cons? ==> HasText(f.data)) && Tidy(f.kids) && Tidy(f.rest)
  }

  /** The same for all nodes below the first level. */
  predicate TidyBelow(f: Forest) {
    f.Cons? ==> Tidy(f.kids) && TidyBelow(f.rest)
  }

  lemma {:induction false} FlattenTidies(f: Forest)
    requires TidyBelow(f)
    ensures Tidy(Flatten(f))
    decreases f.Size()
  {
    if f.Cons? {
      if f.kids.Cons? && !HasText(f.data) {
        TidyAppend(f.kids, f.rest);
        FlattenTidies(Append(f.kids, f.rest));
      } else {
        FlattenTidies(f.rest);
      }
    }
  }

  lemma {:induction false} TidyAppend(f: Forest, g: Forest)
    requires Tidy(f) && TidyBelow(g)
    ensures TidyBelow(Append(f, g))
  {
    if f.Cons? { TidyAppend(f.rest, g); }
  }

  lemma {:induction false} MarkTidies(parent: MenuData, f: Forest, es: seq<Effect>)
    requires Tidy(f)
    ensures Tidy(MarkAll(parent, f, es))
  {
    if f.Cons? { MarkTidies(parent, f.rest, AfterMark(parent, f.data, es)); }
  }

  /** Below a finalized node no node has children but no prompt text. */
  lemma {:induction false} FinalizeTidies(f: Forest, rules: Rules, es: seq<Effect>)
    requires f.Cons?
    ensures Tidy(Finalize(f, rules, es).kids)
    decreases f.Size(), 0
  {
    if f.kids.Cons? {
      var kids, es1 := PropagateAll(f.kids, HandsDown(f.data), rules),
        AfterPropagate(f.kids, HandsDown(f.data), rules, es);
      FinalizeAllTidies(kids, rules, es1);
      FlattenTidies(FinalizeAll(kids, rules, es1));
      MarkTidies(f.data, Flatten(FinalizeAll(kids, rules, es1)), AfterAll(kids, rules, es1));
    } else if f.data.sym.Some? {
      var (taken, _) := Absorb(f.data.sym.value, f.data, f.rest, rules, es);
      AbsorbTidies(f.data.sym.value, f.data, f.rest, rules, es);
      FlattenTidies(taken);
      MarkTidies(f.data, Flatten(taken), AfterAbsorb(f.data.sym.value, f.data, f.rest, rules, es));
    }
  }

  lemma {:induction false} FinalizeAllTidies(f: Forest, rules: Rules, es: seq<Effect>)
    ensures TidyBelow(FinalizeAll(f, rules, es))
    decreases f.Size(), 1
  {
    if f.Cons? {
      FinalizeTidies(f, rules, es);
      FinalizeAllTidies(Finalize(f, rules, es).rest, rules, AfterFinalize(f, rules, es));
    }
  }

  lemma {:induction false} AbsorbTidies(sym: Symbol, parent: MenuData, f: Forest, rules: Rules, es: seq<Effect>)
    ensures TidyBelow(Absorb(sym, parent, f, rules, es).0)
    decreases f.Size(), 1
  {
    if f.Cons? && rules.belongs(sym, parent, f.data) {
      FinalizeTidies(f, rules, es);
      AbsorbTidies(sym, parent, Finalize(f, rules, es).rest, rules, AfterFinalize(f, rules, es));
    }
  }

  /** The data of all nodes, in preorder. */
  function Datas(f: Forest): seq<MenuData> {
    if f.Nil? then [] else [f.data] + Datas(f.kids) + Datas(f.rest)
  }

  /** The data that the nodes should get: every node what its original parent hands down. */
  function Inherited(f: Forest, above: Option<Expr>, rules: Rules): seq<MenuData> {
    if f.Nil? then []
    else
      var d := rules.inherit(f.data, above);
      [d] + Inherited(f.kids, HandsDown(d), rules) + Inherited(f.rest, above, rules)
  }

  /** The same, where the first level has already got it. */
  function InheritedBelow(f: Forest, rules: Rules): seq<MenuData> {
    if f.Nil? then [] else [f.data] + Inherited(f.kids, HandsDown(f.data), rules) + InheritedBelow(f.rest, rules)
  }

  lemma SameTail<T>(x: T, a: seq<T>, b: seq<T>)
    requires [x] + a + [] == [x] + b + []
    ensures a == b
  {
    assert a == ([x] + a + [])[1..] && b == ([x] + b + [])[1..];
  }
}
