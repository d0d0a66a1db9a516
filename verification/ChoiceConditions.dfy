/** The conditions that menu_finalize gives to the values of a choice. */
module ChoiceConditions {
  import opened Tristates
  import opened Exprs
  import opened SymbolSpec
  import opened MenuTree
  import opened MenuSpec
  import opened MenuConditions
  import opened Choices

  /** An entry in a choice, and the ifs around it inside the choice, the outermost first. */
  datatype Place = Place(ifs: seq<MenuData>, entry: MenuData)

  predicate WfPlace(p: Place) {
    && WfData(p.entry) && p.entry.prompt.Some?
    && forall n | 0 <= n < |p.ifs| :: WfData(p.ifs[n]) && p.ifs[n].sym.None?
  }

  /** What the innermost if hands down. */
  function Above(ifs: seq<MenuData>, choice: Symbol, m: Symbol): Option<Expr> {
    if ifs == [] then Some(Sym(choice))
    else HandsDown(Propagate(ifs[|ifs| - 1], Above(ifs[..|ifs| - 1], choice, m), m))
  }

  /** The condition that the prompt of the entry inherits. */
  function InheritedPrompt(p: Place, choice: Symbol, m: Symbol): Option<Expr>
    requires p.entry.prompt.Some?
  {
    Propagate(p.entry, Above(p.ifs, choice, m), m).prompt.value.cond
  }

  lemma {:induction false} AboveIsUnder(ifs: seq<MenuData>, choice: Symbol, m: Symbol, env: Env)
    requires WfEnv(env) && forall n | 0 <= n < |ifs| :: WfData(ifs[n]) && ifs[n].sym.None?
    ensures Proper(Above(ifs, choice, m)) && ValueOpt(Above(ifs, choice, m), env) <= TriOf(choice, env)
  {
    if ifs != [] {
      AboveIsUnder(ifs[..|ifs| - 1], choice, m, env);
      HandedDown(ifs[|ifs| - 1], Above(ifs[..|ifs| - 1], choice, m), m, env);
    }
  }

  /** Whatever is around an entry of a choice, what it inherits bounds its prompt by the choice. */
  lemma PromptIsUnder(p: Place, choice: Symbol, m: Symbol, env: Env)
    requires WfPlace(p) && WfEnv(env)
    ensures ValueOpt(InheritedPrompt(p, choice, m), env) <= TriOf(choice, env)
  {
    var above := Above(p.ifs, choice, m);
    AboveIsUnder(p.ifs, choice, m, env);
    UnderIsMinimum(above, p.entry.dep, m, env);
    PropCondIsMinimum(Under(above, p.entry.dep, m), p.entry.prompt.value.cond, p.entry.sym, m, env);
  }

  /**
   The values of the choice have the prompts that menu_finalize has made for
   their entries in it: what they inherit, perhaps with the condition that the
   choice is y.
   */
  predicate MadeFrom(d: ChoiceDecl, places: seq<seq<Place>>, m: Symbol) {
    && |d.members| == |places|
    && forall i | 0 <= i < |places| :: PromptsFrom(d.members[i].prompts, places[i], d.sym, m)
  }

  predicate PromptsFrom(prompts: seq<Option<Expr>>, places: seq<Place>, choice: Symbol, m: Symbol) {
    && |prompts| == |places|
    && forall n | 0 <= n < |prompts| ::
      && WfPlace(places[n])
      && (prompts[n] == InheritedPrompt(places[n], choice, m) ||
         prompts[n] == Strict(choice, InheritedPrompt(places[n], choice, m)))
  }

  /** So the assumption of the theorems about choices holds of every choice that menu_finalize has worked on. */
  lemma FinalizedChoice(d: ChoiceDecl, places: seq<seq<Place>>, m: Symbol, env: Env)
    requires MadeFrom(d, places, m) && d.sym.IsTri() && WfEnv(env)
    ensures PromptsUnder(d, env)
  {
    forall i, n, t: Tristate | 0 <= i < |d.members| && 0 <= n < |d.members[i].prompts| && Possible(d, t, env)
      ensures ValueOpt(d.members[i].prompts[n], With(env, d.sym, t)) <= t
    {
      assert PromptsFrom(d.members[i].prompts, places[i], d.sym, m);
      PromptIsUnder(places[i][n], d.sym, m, With(env, d.sym, t));
      StrictMeans(d.sym, InheritedPrompt(places[i][n], d.sym, m), With(env, d.sym, t));
    }
  }

  /** Exclusivity, from the conditions as they are written. */
  lemma FinalizedChoiceHasOneYes(d: ChoiceDecl, places: seq<seq<Place>>, m: Symbol, user: ChoiceUser, users: seq<User>,
                                 env: Env)
    requires MadeFrom(d, places, m) && d.sym.IsTri() && WfEnv(env) && MembersNamed(d) && |users| == |d.members|
    ensures var s := Choose(d, user, env);
      && (s.tri == YES ==> exists i | 0 <= i < |d.members| :: MemberTri(d, s, i, users[i], env) == YES)
      && (forall i, j | 0 <= i < j < |d.members| && s.tri == YES ::
            MemberTri(d, s, i, users[i], env) == NO || MemberTri(d, s, j, users[j], env) == NO)
      && (s.tri == NO ==> forall i | 0 <= i < |d.members| :: MemberTri(d, s, i, users[i], env) == NO)
  {
    FinalizedChoice(d, places, m, env);
    ExactlyOne(d, user, users, env);
    var s := Choose(d, user, env);
    assert s.tri == YES ==> MemberTri(d, s, s.chosen.value, users[s.chosen.value], env) == YES;
  }
}
