/**
 sym_check_deps and its companions: the search for recursive dependencies, for
 configurations without choices.
 */
module CheckDeps {
  import opened Tristates
  import opened Exprs

  datatype PropType = P_PROMPT | P_DEFAULT | P_SELECT | P_IMPLY | P_RANGE

  /** A property: its condition, and its value if it is a default. */
  datatype Property = Property(kind: PropType, visible: Option<Expr>, value: Option<Expr>)

  /** struct symbol, as far as the check looks at it. */
  class DepSymbol {
    const revDep: Option<Expr>
    const props: seq<Property>
    /** SYMBOL_CHECK and SYMBOL_CHECKED */
    var check: bool
    var checked: bool

    constructor (revDep: Option<Expr>, props: seq<Property>)
      ensures this.revDep == revDep && this.props == props && !check && !checked
    {
      this.revDep, this.props, check, checked := revDep, props, false, false;
    }
  }

  /** The symbols in an expression; y, m and n have no dependencies and do not count. */
  function SymbolsIn(e: Expr): set<nat> {
    match e
    case Sym(s) => IdOf(s)
    case Cmp(_, a, b) => IdOf(a) + IdOf(b)
    case Not(c) => SymbolsIn(c)
    case Bin(_, l, r) => SymbolsIn(l) + SymbolsIn(r)
  }

  function IdOf(s: Symbol): set<nat> { if IsTriConst(s) then {} else {s.id} }

  function SymbolsInOpt(e: Option<Expr>): set<nat> { if e.None? then {} else SymbolsIn(e.value) }

  /** What is followed of a property: nothing of a select, the value only of a default. */
  function Followed(p: Property): set<nat> {
    if p.kind == P_SELECT then {}
    else SymbolsInOpt(p.visible) + if p.kind == P_DEFAULT then SymbolsInOpt(p.value) else {}
  }

  function FollowedIn(props: seq<Property>): set<nat> {
    if props == [] then {} else Followed(props[0]) + FollowedIn(props[1..])
  }

  /** The symbols that a symbol depends on, as far as the check follows dependencies. */
  function Needs(c: DepSymbol): set<nat> { SymbolsInOpt(c.revDep) + FollowedIn(c.props) }

  /** Every symbol of the path depends on the next one. */
  predicate IsPath(cells: seq<DepSymbol>, p: seq<nat>) {
    && (forall k | 0 <= k < |p| :: p[k] < |cells|)
    && (forall k | 0 <= k < |p| - 1 :: p[k + 1] in Needs(cells[p[k]]))
  }

  /** A recursive dependency. */
  predicate IsCycle(cells: seq<DepSymbol>, p: seq<nat>) {
    p != [] && IsPath(cells, p) && p[0] in Needs(cells[p[|p| - 1]])
  }

  ghost predicate HasCycle(cells: seq<DepSymbol>) {
    exists p :: IsCycle(cells, p)
  }

  /** Every symbol in the list depends only on symbols that come before it. */
  predicate Ordered(cells: seq<DepSymbol>, done: seq<nat>) {
    forall k | 0 <= k < |done| :: done[k] < |cells| && forall j | j in Needs(cells[done[k]]) :: j in done[..k]
  }

  lemma PathTail(cells: seq<DepSymbol>, p: seq<nat>, k: nat)
    requires IsPath(cells, p) && k <= |p|
    ensures IsPath(cells, p[k..])
  {
    var t := p[k..];
    forall m | 0 <= m < |t| - 1 ensures t[m + 1] in Needs(cells[t[m]]) {
      assert t[m] == p[k + m] && t[m + 1] == p[k + m + 1];
    }
  }

  /** Without its last symbol a path is a path of the other symbols. */
  lemma PathFront(cells: seq<DepSymbol>, front: seq<nat>, i: nat)
    requires IsPath(cells, front + [i]) && i !in front
    ensures IsPath(cells, front) && forall j :: j in front <==> j in front + [i] && j != i
  {
    var p := front + [i];
    forall k | 0 <= k < |front| ensures front[k] < |cells| { assert p[k] == front[k]; }
    forall k | 0 <= k < |front| - 1 ensures front[k + 1] in Needs(cells[front[k]]) {
      assert p[k] == front[k] && p[k + 1] == front[k + 1];
    }
  }

  /** Along a path the positions in such a list decrease. */
  lemma {:induction false} PathGoesBack(cells: seq<DepSymbol>, done: seq<nat>, p: seq<nat>, k: nat) returns (at: nat)
    requires Ordered(cells, done) && IsPath(cells, p) && k < |done| && p != [] && p[0] == done[k]
    ensures at <= k && p[|p| - 1] == done[at] && |p| - 1 <= k - at
    decreases |p|
  {
    at := k;
    if |p| > 1 {
      assert p[1] in Needs(cells[done[k]]);
      var j :| 0 <= j < k && done[j] == p[1];
      PathTail(cells, p, 1);
      at := PathGoesBack(cells, done, p[1..], j);
    }
  }

  /** The first position of x. */
  function FirstAt(s: seq<nat>, x: nat): (k: nat)
    requires x in s
    ensures k < |s| && s[k] == x && x !in s[..k]
  {
    if s[0] == x then 0
    else
      var k := 1 + FirstAt(s[1..], x);
      assert s[..k] == [s[0]] + s[1..][..k - 1];
      k
  }

  lemma NoCycle(cells: seq<DepSymbol>, done: seq<nat>, p: seq<nat>)
    requires Ordered(cells, done) && IsCycle(cells, p)
    ensures p[0] !in done
  {
    if p[0] in done {
      var first := FirstAt(done, p[0]);
      var last := PathGoesBack(cells, done, p, first);
    }
  }

  /** If all symbols can be listed like that, there is no recursive dependency. */
  lemma OrderedMeansAcyclic(cells: seq<DepSymbol>, done: seq<nat>)
    requires Ordered(cells, done) && forall i | 0 <= i < |cells| :: i in done
    ensures !HasCycle(cells)
  {
    forall p | IsCycle(cells, p) ensures false { NoCycle(cells, done, p); }
  }

  lemma OrderedSnoc(cells: seq<DepSymbol>, done: seq<nat>, i: nat)
    requires Ordered(cells, done) && i < |cells| && forall j | j in Needs(cells[i]) :: j in done
    ensures Ordered(cells, done + [i])
  {
    var more := done + [i];
    forall k | 0 <= k < |more| ensures more[k] < |cells| && forall j | j in Needs(cells[more[k]]) :: j in more[..k] {
      assert more[..k] == done[..k];
    }
  }

  class DependencyChecker {
    const cells: seq<DepSymbol>
    /** check_top and what is below it, the bottom first */
    var stack: seq<nat>
    /** what has been printed: the symbols of every recursive dependency found */
    var reports: seq<seq<nat>>
    /** the symbols whose dependencies have all been followed, in that order */
    ghost var done: seq<nat>

    constructor (cells: seq<DepSymbol>)
      requires Closed(cells) && forall i | 0 <= i < |cells| :: !cells[i].check && !cells[i].checked
      ensures this.cells == cells && stack == [] && reports == [] && done == [] && Inv()
    {
      this.cells := cells;
      stack, reports, done := [], [], [];
    }

    static predicate Closed(cells: seq<DepSymbol>) {
      && (forall i, j | 0 <= i < j < |cells| :: cells[i] != cells[j])
      && (forall i | 0 <= i < |cells| :: forall j | j in Needs(cells[i]) :: j < |cells|)
    }

    /** The flag SYMBOL_CHECK marks what is on the stack, which is a path; what is reported are cycles. */
    ghost predicate Inv()
      reads this, cells
    {
      && Closed(cells)
      && (forall i | 0 <= i < |cells| :: cells[i].check <==> i in stack)
      && (forall i | 0 <= i < |cells| :: cells[i].check ==> cells[i].checked)
      && IsPath(cells, stack)
      && (forall r | r in reports :: IsCycle(cells, r))
      && (reports == [] ==> Complete())
    }

    /** As long as nothing has been reported, everything checked and no longer on the stack is done. */
    ghost predicate Complete()
      requires Closed(cells)
      reads this, cells
    {
      Ordered(cells, done) && forall i | 0 <= i < |cells| :: cells[i].checked && !cells[i].check <==> i in done
    }

    /** The symbols not yet checked. */
    ghost function White(): set<nat>
      reads this, cells
    {
      set i | 0 <= i < |cells| && !cells[i].checked
    }

    /** What every part of the check leaves as it was, or adds to. */
    twostate predicate Kept()
      reads this, cells
    {
      && stack == old(stack)
      && (forall i | 0 <= i < |cells| :: old(cells[i].checked) ==> cells[i].checked)
      && |reports| >= |old(reports)| && reports[..|old(reports)|] == old(reports)
    }

    /** What is returned is a symbol of a reported cycle that is still being checked. */
    ghost predicate OnStack(found: Option<nat>)
      reads this
    {
      found.Some? ==> reports != [] && found.value in stack
    }

    /** sym_check_print_recursive: the part of the stack from the symbol on. */
    method PrintRecursive(i: nat)
      requires Inv() && i in stack && i in Needs(cells[stack[|stack| - 1]])
      modifies this`reports
      ensures Inv() && Kept() && reports != []
    {
      var k := |stack| - 1;
      while stack[k] != i
        invariant 0 <= k < |stack| && i in stack[..k + 1]
        decreases k
      {
        k := k - 1;
      }
      PathTail(cells, stack, k);
      reports := reports + [stack[k..]];
    }

    /** sym_check_expr_deps. */
    method CheckExpr(e: Expr) returns (found: Option<nat>)
      requires Inv() && stack != [] && SymbolsIn(e) <= Needs(cells[stack[|stack| - 1]])
      modifies this, cells
      ensures Inv() && Kept() && OnStack(found)
      ensures reports == [] ==> forall j | j in SymbolsIn(e) :: j in done
      decreases White(), 3, e
    {
      match e
      case Sym(s) => found := CheckSymbol(s);
      case Not(c) => found := CheckExpr(c);
      case Bin(_, l, r) =>
        found := CheckExpr(l);
        if found.None? { found := CheckExpr(r); }
      case Cmp(_, a, b) =>
        found := CheckSymbol(a);
        if found.None? { found := CheckSymbol(b); }
    }

    method CheckSymbol(s: Symbol) returns (found: Option<nat>)
      requires Inv() && stack != [] && IdOf(s) <= Needs(cells[stack[|stack| - 1]])
      modifies this, cells
      ensures Inv() && Kept() && OnStack(found)
      ensures reports == [] ==> forall j | j in IdOf(s) :: j in done
      decreases White(), 2
    {
      found := None;
      if !IsTriConst(s) {
        assert s.id in IdOf(s);
        found := CheckDeps(s.id);
      }
    }

    method CheckOpt(e: Option<Expr>) returns (found: Option<nat>)
      requires Inv() && stack != [] && SymbolsInOpt(e) <= Needs(cells[stack[|stack| - 1]])
      modifies this, cells
      ensures Inv() && Kept() && OnStack(found)
      ensures reports == [] ==> forall j | j in SymbolsInOpt(e) :: j in done
      decreases White(), 4
    {
      found := None;
      if e.Some? { found := CheckExpr(e.value); }
    }

    /** sym_check_deps. */
    method CheckDeps(i: nat) returns (found: Option<nat>)
      requires Inv() && i < |cells| && (stack == [] || i in Needs(cells[stack[|stack| - 1]]))
      modifies this, cells
      ensures Inv() && Kept() && cells[i].checked && OnStack(found)
      ensures reports == [] ==> i in done
      decreases White(), 1
    {
      if cells[i].check {
        PrintRecursive(i);
        return Some(i);
      }
      if cells[i].checked { return None; }
      found := CheckUnchecked(i);
      if found == Some(i) { found := None; }
    }

    /** Its last branch, with the stack entry that sym_check_sym_deps inserts and removes. */
    method CheckUnchecked(i: nat) returns (found: Option<nat>)
      requires Inv() && i < |cells| && !cells[i].checked && (stack == [] || i in Needs(cells[stack[|stack| - 1]]))
      modifies this, cells
      ensures Inv() && Kept() && cells[i].checked && (found == Some(i) || OnStack(found))
      ensures found.Some? ==> reports != []
      ensures reports == [] ==> i in done
      decreases White(), 0
    {
      Enter(i);
      found := CheckSymDeps(i);
      Leave(i);
    }

    method Enter(i: nat)
      requires Inv() && i < |cells| && !cells[i].checked && (stack == [] || i in Needs(cells[stack[|stack| - 1]]))
      modifies this`stack, cells
      ensures Inv() && stack == old(stack) + [i] && White() < old(White()) && cells[i].checked
      ensures forall j | 0 <= j < |cells| :: old(cells[j].checked) ==> cells[j].checked
    {
      var c := cells[i];
      assert forall j | 0 <= j < |cells| && j != i :: cells[j] != c;
      assert i in White();
      c.check, c.checked := true, true;
      assert i !in White();
      stack := stack + [i];
    }

    method Leave(i: nat)
      requires Inv() && stack != [] && stack[|stack| - 1] == i && i !in stack[..|stack| - 1]
      requires reports == [] ==> forall j | j in Needs(cells[i]) :: j in done
      modifies this`stack, this`done, cells
      ensures Inv() && stack == old(stack)[..|old(stack)| - 1] && cells[i].checked
      ensures forall j | 0 <= j < |cells| :: cells[j].checked == old(cells[j].checked)
      ensures reports == [] ==> i in done
    {
      var c := cells[i];
      assert forall j | 0 <= j < |cells| && j != i :: cells[j] != c;
      var rest := stack[..|stack| - 1];
      assert stack == rest + [i];
      PathFront(cells, rest, i);
      stack := rest;
      c.check := false;
      if reports == [] { AddDone(i); }
    }

    /** The dependencies of the symbol that has just left the stack have all been followed. */
    ghost method AddDone(i: nat)
      requires Closed(cells) && i < |cells| && cells[i].checked && !cells[i].check
      requires Ordered(cells, done) && forall j | j in Needs(cells[i]) :: j in done
      requires forall j | 0 <= j < |cells| && j != i :: cells[j].checked && !cells[j].check <==> j in done
      modifies this`done
      ensures Complete() && i in done
    {
      OrderedSnoc(cells, done, i);
      done := done + [i];
    }

    /** sym_check_sym_deps. */
    method CheckSymDeps(i: nat) returns (found: Option<nat>)
      requires Inv() && i < |cells| && stack != [] && stack[|stack| - 1] == i
      modifies this, cells
      ensures Inv() && Kept() && OnStack(found)
      ensures reports == [] ==> forall j | j in Needs(cells[i]) :: j in done
      decreases White(), 7
    {
      found := CheckOpt(cells[i].revDep);
      if found.Some? { return; }
      found := CheckProps(cells[i].props);
    }

    /** Its loop over the properties. */
    method CheckProps(props: seq<Property>) returns (found: Option<nat>)
      requires Inv() && stack != [] && FollowedIn(props) <= Needs(cells[stack[|stack| - 1]])
      modifies this, cells
      ensures Inv() && Kept() && OnStack(found)
      ensures reports == [] ==> forall j | j in FollowedIn(props) :: j in done
      decreases White(), 6
    {
      found := None;
      for n := 0 to |props|
        invariant Inv() && Kept() && found.None?
        invariant reports == [] ==> forall j | j in FollowedIn(props) && j !in FollowedIn(props[n..]) :: j in done
      {
        FollowedAt(props, n);
        assert Followed(props[n]) <= FollowedIn(props);
        if props[n].kind != P_SELECT {
          found := CheckProp(props[n]);
          if found.Some? { return; }
        }
      }
    }

    method CheckProp(p: Property) returns (found: Option<nat>)
      requires Inv() && stack != [] && p.kind != P_SELECT && Followed(p) <= Needs(cells[stack[|stack| - 1]])
      modifies this, cells
      ensures Inv() && Kept() && OnStack(found)
      ensures reports == [] ==> forall j | j in Followed(p) :: j in done
      decreases White(), 5
    {
      found := CheckOpt(p.visible);
      if found.Some? || p.kind != P_DEFAULT { return; }
      found := CheckOpt(p.value);
    }

    /**
     The sweep over all symbols at the end of conf_parse: something is reported
     exactly if there is a cycle. It counts no error even then, because every
     call from outside returns NULL.
     */
    method CheckAll() returns (errors: nat)
      requires Inv() && stack == [] && reports == [] && done == []
      modifies this, cells
      ensures reports == [] <==> !HasCycle(cells)
      ensures forall r | r in reports :: IsCycle(cells, r)
      ensures errors == 0
    {
      errors := 0;
      for i := 0 to |cells|
        invariant Inv() && stack == [] && errors == 0
        invariant reports == [] ==> forall j | 0 <= j < i :: j in done
      {
        var found := CheckDeps(i);
        errors := errors + if found.Some? then 1 else 0;
      }
      if reports == [] {
        OrderedMeansAcyclic(cells, done);
      } else {
        assert reports[0] in reports && IsCycle(cells, reports[0]);
      }
    }
  }

  lemma {:induction false} FollowedAt(props: seq<Property>, n: nat)
    requires n < |props|
    ensures FollowedIn(props[n..]) == Followed(props[n]) + FollowedIn(props[n + 1..])
    ensures Followed(props[n]) <= FollowedIn(props)
    decreases n
  {
    assert props[n..][1..] == props[n + 1..];
    if n > 0 { FollowedAt(props[1..], n - 1); }
  }
}
