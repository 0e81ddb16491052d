/** How menu_finalize hands dependencies down the tree of the Kconfig files (kconf/menu.c:305-419), each one
    rewritten and simplified on the way.
 */
module KconfigDepends {

  import opened KconfigExpr
  import opened KconfigDups
  import opened KconfigTransform

  /** A parsed entry with what it depends on, the conditions of its properties, and the entries in it. Only a
      choice, or a menu or block without a symbol, has entries in it; a menu's only condition is its prompt's.
      `exact` is set unless the entry has a symbol that is not tristate.
   */
  datatype Entry = Entry(choice: Option<Symbol>, exact: bool, dep: Option<Expr>, conds: seq<Option<Expr>>,
                         kids: seq<Entry>)
  {
    /** What the entries inside depend on. */
    function Handed(): Option<Expr> {
      if choice.Some? then Some(Sym(choice.value)) else if conds != [] then conds[0] else dep
    }
  }

  // ----- what the result means -----

  /** The value of a condition, of which only the visibility is kept unless `exact`. */
  predicate SameCond(exact: bool, v: Tri, w: Tri) { if exact then v == w else Promote(v) == Promote(w) }

  /** The entry e has become e', where what it inherits has the value `up`: its dependency is the lesser of that
      and its own, every condition is the lesser of that dependency and its own, and so on for the entries inside.
   */
  ghost predicate Handled(e: Entry, e': Entry, up: Tri, env: Env)
    decreases e
  {
    && e'.choice == e.choice && |e'.conds| == |e.conds| && |e'.kids| == |e.kids|
    && ValueOpt(e'.dep, env) == Min(up, MeaningOpt(e.dep, env))
    && (forall i :: 0 <= i < |e.conds| ==>
      SameCond(e.exact, ValueOpt(e'.conds[i], env), Min(ValueOpt(e'.dep, env), MeaningOpt(e.conds[i], env))))
    && forall i :: 0 <= i < |e.kids| ==> Handled(e.kids[i], e'.kids[i], ValueOpt(e'.Handed(), env), env)
  }

  /** Every choice in the entry is n. */
  ghost predicate ChoicesOff(e: Entry, env: Env)
    decreases e
  {
    (e.choice.Some? ==> Curr(e.choice.value, env) == NO) && forall i :: 0 <= i < |e.kids| ==> ChoicesOff(e.kids[i], env)
  }

  /** Nothing in the entry is visible or applies. */
  ghost predicate Off(e: Entry, env: Env)
    decreases e
  {
    && ValueOpt(e.dep, env) == NO && (forall i :: 0 <= i < |e.conds| ==> ValueOpt(e.conds[i], env) == NO)
    && forall i :: 0 <= i < |e.kids| ==> Off(e.kids[i], env)
  }

  /** Where the inherited dependency is n, everything inside is off, at any depth. */
  lemma {:induction false} OffBelow(e: Entry, e': Entry, env: Env)
    requires Handled(e, e', NO, env) && ChoicesOff(e, env)
    ensures Off(e', env)
    decreases e
  {
    forall i | 0 <= i < |e.conds| ensures ValueOpt(e'.conds[i], env) == NO {
      assert SameCond(e.exact, ValueOpt(e'.conds[i], env), Min(NO, MeaningOpt(e.conds[i], env)));
    }
    assert ValueOpt(e'.Handed(), env) == NO;
    forall i | 0 <= i < |e.kids| ensures Off(e'.kids[i], env) { OffBelow(e.kids[i], e'.kids[i], env); }
  }

  // ----- the two loops -----

  /** All literals in the entry are among `names`. */
  ghost predicate Using(e: Entry, names: set<string>)
    decreases e
  {
    && LiteralsOpt(e.dep) <= names && (forall i :: 0 <= i < |e.conds| ==> LiteralsOpt(e.conds[i]) <= names)
    && (e.choice.Some? ==> Literals(Sym(e.choice.value)) <= names)
    && forall i :: 0 <= i < |e.kids| ==> Using(e.kids[i], names)
  }

  /** All orderings in the entry are defined. */
  ghost predicate AllOrdered(e: Entry, env: Env)
    decreases e
  {
    && OrderedOpt(e.dep, env) && (forall i :: 0 <= i < |e.conds| ==> OrderedOpt(e.conds[i], env))
    && forall i :: 0 <= i < |e.kids| ==> AllOrdered(e.kids[i], env)
  }

  /** No literal reads as n, m or y does, and the orderings are defined. */
  ghost predicate Fine(e: Entry, names: set<string>, modules: Symbol, env: Env) {
    Sane(names, env) && env.modules == modules && AllOrdered(e, env)
  }

  /** The entry's own part of `Handled`. */
  ghost predicate HeadHandled(e: Entry, e': Entry, up: Tri, env: Env) {
    && e'.choice == e.choice && |e'.conds| == |e.conds|
    && ValueOpt(e'.dep, env) == Min(up, MeaningOpt(e.dep, env))
    && forall i :: 0 <= i < |e.conds| ==>
      SameCond(e.exact, ValueOpt(e'.conds[i], env), Min(ValueOpt(e'.dep, env), MeaningOpt(e.conds[i], env)))
  }

  lemma SaneOptsWithin(a: Option<Expr>, b: Option<Expr>, names: set<string>, env: Env)
    requires Sane(names, env) && LiteralsOpt(a) <= names && LiteralsOpt(b) <= names
    ensures SaneOpts(a, b, env)
  {}

  /** The conditions of an entry's properties, whose dependency is `dep` by now. */
  method Conditions(e: Entry, dep: Option<Expr>, modules: Symbol, ghost names: set<string>)
    returns (conds: seq<Option<Expr>>)
    requires NotOverSymbolsOpt(dep) && MayBeModules(modules) && LiteralsOpt(dep) <= names && Using(e, names)
    ensures |conds| == |e.conds|
    ensures forall i :: 0 <= i < |conds| ==> NotOverSymbolsOpt(conds[i]) && LiteralsOpt(conds[i]) <= names
    ensures forall i, env: Env :: 0 <= i < |conds| && Fine(e, names, modules, env) ==>
      SameCond(e.exact, ValueOpt(conds[i], env), Min(ValueOpt(dep, env), MeaningOpt(e.conds[i], env)))
  {
    hide Sane, Ordered, Meaning, Value, Literals, NotOverSymbols;
    conds := [];
    for k := 0 to |e.conds|
      invariant |conds| == k
      invariant forall i :: 0 <= i < k ==> NotOverSymbolsOpt(conds[i]) && LiteralsOpt(conds[i]) <= names
      invariant forall i, env: Env :: 0 <= i < k && Fine(e, names, modules, env) ==>
        SameCond(e.exact, ValueOpt(conds[i], env), Min(ValueOpt(dep, env), MeaningOpt(e.conds[i], env)))
    {
      var c := PropertyCondition(e.exact, dep, e.conds[k], modules);
      forall env: Env | Fine(e, names, modules, env)
        ensures SameCond(e.exact, ValueOpt(c, env), Min(ValueOpt(dep, env), MeaningOpt(e.conds[k], env)))
      {
        SaneOptsWithin(dep, e.conds[k], names, env);
      }
      conds := conds + [c];
    }
  }

  /** One turn of the loop over the children: the entry's dependency and conditions. */
  method FinalizeHead(handed: Option<Expr>, e: Entry, modules: Symbol, ghost names: set<string>) returns (head: Entry)
    requires NotOverSymbolsOpt(handed) && MayBeModules(modules) && LiteralsOpt(handed) <= names && Using(e, names)
    ensures head.kids == e.kids
    ensures NotOverSymbolsOpt(head.Handed()) && LiteralsOpt(head.Handed()) <= names
    ensures forall env: Env | Fine(e, names, modules, env) :: HeadHandled(e, head, ValueOpt(handed, env), env)
  {
    var dep := Inherit(handed, e.dep, modules);
    forall env: Env | Fine(e, names, modules, env)
      ensures ValueOpt(dep, env) == Min(ValueOpt(handed, env), MeaningOpt(e.dep, env))
    {
      SaneOptsWithin(handed, e.dep, names, env);
    }
    var conds := Conditions(e, dep, modules, names);
    head := e.(dep := dep, conds := conds);
  }

  /** menu_finalize's part on dependencies: first those of all entries in the list, then those inside each. */
  method FinalizeKids(handed: Option<Expr>, kids: seq<Entry>, modules: Symbol, ghost names: set<string>)
    returns (out: seq<Entry>)
    requires NotOverSymbolsOpt(handed) && MayBeModules(modules) && LiteralsOpt(handed) <= names
    requires forall i :: 0 <= i < |kids| ==> Using(kids[i], names)
    ensures |out| == |kids|
    ensures forall i, env: Env :: 0 <= i < |kids| && Fine(kids[i], names, modules, env) ==>
      Handled(kids[i], out[i], ValueOpt(handed, env), env)
    decreases kids
  {
    hide Sane, Ordered, Meaning, Value, Literals, NotOverSymbols;
    var heads: seq<Entry> := [];
    for k := 0 to |kids|
      invariant |heads| == k
      invariant forall i :: 0 <= i < k ==> heads[i].kids == kids[i].kids
      invariant forall i :: 0 <= i < k ==>
        NotOverSymbolsOpt(heads[i].Handed()) && LiteralsOpt(heads[i].Handed()) <= names
      invariant forall i, env: Env :: 0 <= i < k && Fine(kids[i], names, modules, env) ==>
        HeadHandled(kids[i], heads[i], ValueOpt(handed, env), env)
    {
      var head := FinalizeHead(handed, kids[k], modules, names);
      heads := heads + [head];
    }
    out := [];
    for k := 0 to |kids|
      invariant |out| == k
      invariant forall i, env: Env :: 0 <= i < k && Fine(kids[i], names, modules, env) ==>
        Handled(kids[i], out[i], ValueOpt(handed, env), env)
    {
      var inner := FinalizeKids(heads[k].Handed(), kids[k].kids, modules, names);
      var e' := heads[k].(kids := inner);
      forall env: Env | Fine(kids[k], names, modules, env)
        ensures Handled(kids[k], e', ValueOpt(handed, env), env)
      {
        assert HeadHandled(kids[k], heads[k], ValueOpt(handed, env), env);
      }
      out := out + [e'];
    }
  }
}
