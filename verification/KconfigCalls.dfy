/** What every call of the evaluator keeps (kconf/symbol.c). Seen from a set of symbols that depend on each other
    only, a call for any symbol at all is a number of calls for symbols of the set, with writes to other symbols
    between them. So what these keep is kept by every call.
 */
module KconfigCalls {

  import opened KconfigExpr
  import opened KconfigSymbol

  /** A choice value belongs to one choice, whose member it is: menu_finalize puts a symbol into one choice only
      (kconf/menu.c:499-538).
   */
  ghost predicate OwnMembers(g: Graph) {
    forall c: nat, m: nat :: m in g.Of(c).members ==> g.Of(m).choice == Some(c)
  }

  /** Nothing waits, and MODULES is calculated or being calculated. */
  predicate Steady(g: Graph, st: State) { st.need == {} && g.modules !in st.stale }

  /** The symbols of d are left alone, and so is MODULES unless `plain`. */
  ghost predicate Outside(g: Graph, st: State, st': State, d: iset<nat>, plain: bool) {
    && Steady(g, st) && Steady(g, st') && |st'.cells| == |st.cells| && st'.stale <= st.stale
    && (forall y: nat :: y in d ==> Untouched(st, st', y))
    && (plain || (st'.modulesVal == st.modulesVal && SameValue(st, st', g.modules)))
    && (OnlyTristateM(g, st) ==> OnlyTristateM(g, st'))
  }

  /** Calls for symbols of d, and writes to others, keep p. */
  ghost predicate Lasting(g: Graph, d: iset<nat>, plain: bool, p: State -> bool) {
    && (forall st: State, y: nat :: Steady(g, st) && p(st) && y in d ==> p(Calc(g, st, y)))
    && (forall st: State, st': State :: p(st) && Outside(g, st, st', d, plain) ==> p(st'))
  }

  ghost predicate Guarded(g: Graph, st: State, d: iset<nat>, plain: bool, p: State -> bool) {
    Closed(g, d) && OwnMembers(g) && Lasting(g, d, plain, p) && Steady(g, st) && p(st)
  }

  lemma OutsideHolds(g: Graph, st: State, st': State, d: iset<nat>, plain: bool, p: State -> bool)
    requires Guarded(g, st, d, plain, p) && Outside(g, st, st', d, plain)
    ensures Guarded(g, st', d, plain, p)
  {}

  /** Writing one cell. */
  lemma PutHolds(g: Graph, st: State, x: nat, c: Cell, d: iset<nat>, plain: bool, p: State -> bool)
    requires Guarded(g, st, d, plain, p) && x !in d
    requires c.tri == st.Of(x).tri || (c.tri == MOD ==> g.Of(x).typ == Tristate)
    requires x == g.modules && !plain ==>
      c.tri == st.Of(x).tri && c.val == st.Of(x).val && c.chosen == st.Of(x).chosen
    ensures Guarded(g, st.Put(x, c), d, plain, p)
  {
    var st' := st.Put(x, c);
    if OnlyTristateM(g, st) {
      forall y: nat | y < |st'.cells| ensures MaybeM(g, st', y) { assert MaybeM(g, st, y); }
    }
    assert Outside(g, st, st', d, plain);
    OutsideHolds(g, st, st', d, plain, p);
  }

  /** Writing other fields than the value. */
  lemma FlagHolds(g: Graph, st: State, x: nat, c: Cell, d: iset<nat>, plain: bool, p: State -> bool)
    requires Guarded(g, st, d, plain, p) && x !in d
    requires c.tri == st.Of(x).tri && c.val == st.Of(x).val && c.chosen == st.Of(x).chosen
    ensures Guarded(g, st.Put(x, c), d, plain, p)
  {
    PutHolds(g, st, x, c, d, plain, p);
  }

  /** A symbol that may be written while it is being calculated. */
  predicate Writable(g: Graph, x: nat, d: iset<nat>, plain: bool) { x !in d && (x == g.modules ==> plain) }

  // ----- the calls -----

  lemma {:induction false} CalcHolds(g: Graph, st: State, x: nat, d: iset<nat>, plain: bool, p: State -> bool)
    requires Guarded(g, st, d, plain, p)
    ensures Guarded(g, Calc(g, st, x), d, plain, p)
    decreases |st.need|, |st.stale|, 0, 0
  {
    if x in st.stale {
      if x in d {
        CalcSteps(g, st, x, d);
      } else {
        var st0 := st.(stale := st.stale - {x});
        Validated(st, x);
        StaleHolds(g, st, x, d, plain, p);
        hide Guarded;
        CalculateHolds(g, st0, x, d, plain, p);
      }
    }
  }

  lemma StaleHolds(g: Graph, st: State, x: nat, d: iset<nat>, plain: bool, p: State -> bool)
    requires Guarded(g, st, d, plain, p) && x in st.stale && x !in d
    ensures Guarded(g, st.(stale := st.stale - {x}), d, plain, p) && Writable(g, x, d, plain) && st.need == {}
  {
    var st' := st.(stale := st.stale - {x});
    if OnlyTristateM(g, st) {
      forall y: nat | y < |st'.cells| ensures MaybeM(g, st', y) { assert MaybeM(g, st, y); }
    }
    assert Outside(g, st, st', d, plain);
  }

  lemma {:induction false} SymHolds(g: Graph, st: State, s: Symbol, d: iset<nat>, plain: bool, p: State -> bool)
    requires Guarded(g, st, d, plain, p)
    ensures Guarded(g, CalcSym(g, st, s), d, plain, p)
    decreases |st.need|, |st.stale|, 0, 1
  {
    hide Guarded;
    if s.Config? { CalcHolds(g, st, s.id, d, plain, p); }
  }

  lemma {:induction false} ReadHolds(g: Graph, st: State, s: Symbol, d: iset<nat>, plain: bool, p: State -> bool)
    requires Guarded(g, st, d, plain, p)
    ensures Guarded(g, ReadString(g, st, s), d, plain, p)
    decreases |st.need|, |st.stale|, 0, 1
  {
    hide Guarded;
    CalcHolds(g, st, g.modules, d, plain, p);
  }

  lemma {:induction false} ExprHolds(g: Graph, st: State, e: Expr, d: iset<nat>, plain: bool, p: State -> bool)
    requires Guarded(g, st, d, plain, p)
    ensures Guarded(g, ExprTri(g, st, e).0, d, plain, p)
    decreases |st.need|, |st.stale|, 1, Size(e)
  {
    hide Guarded;
    match e
    case Sym(s) => SymHolds(g, st, s, d, plain, p);
    case Not(a) => ExprHolds(g, st, a, d, plain, p);
    case And(l, r) =>
      ExprHolds(g, st, l, d, plain, p);
      ExprHolds(g, ExprTri(g, st, l).0, r, d, plain, p);
    case Or(l, r) =>
      ExprHolds(g, st, l, d, plain, p);
      ExprHolds(g, ExprTri(g, st, l).0, r, d, plain, p);
    case Cmp(op, l, r) =>
      SymHolds(g, st, l, d, plain, p);
      var st1 := CalcSym(g, st, l);
      SymHolds(g, st1, r, d, plain, p);
      var st2 := CalcSym(g, st1, r);
      ReadHolds(g, st2, l, d, plain, p);
      ReadHolds(g, ReadString(g, st2, l), r, d, plain, p);
  }

  lemma {:induction false} OptHolds(g: Graph, st: State, e: Option<Expr>, d: iset<nat>, plain: bool, p: State -> bool)
    requires Guarded(g, st, d, plain, p)
    ensures Guarded(g, OptTri(g, st, e).0, d, plain, p)
    decreases |st.need|, |st.stale|, 2, 0
  {
    hide Guarded;
    if e.Some? { ExprHolds(g, st, e.value, d, plain, p); }
  }

  lemma {:induction false} PromptsHold(g: Graph, st: State, x: nat, k: nat, t: Tri, d: iset<nat>, plain: bool,
                                       p: State -> bool)
    requires Guarded(g, st, d, plain, p) && k <= |g.Of(x).prompts|
    ensures Guarded(g, Prompts(g, st, x, k, t).0, d, plain, p)
    decreases |st.need|, |st.stale|, 3, |g.Of(x).prompts| - k
  {
    hide Guarded;
    if k < |g.Of(x).prompts| {
      var e := g.Of(x).prompts[k];
      OptHolds(g, st, e, d, plain, p);
      var (st1, v) := OptTri(g, st, e);
      PromptsHold(g, st1, x, k + 1, Max(t, Unhidden(g, st1, x, v)), d, plain, p);
    }
  }

  lemma {:induction false} VisibilityHolds(g: Graph, st: State, x: nat, d: iset<nat>, plain: bool, p: State -> bool)
    requires Guarded(g, st, d, plain, p) && x !in d
    ensures Guarded(g, Visibility(g, st, x), d, plain, p)
    decreases |st.need|, |st.stale|, 4, 0
  {
    hide Guarded;
    var i := g.Of(x);
    PromptsHold(g, st, x, 0, NO, d, plain, p);
    var (st1, t) := Prompts(g, st, x, 0, NO);
    var visible := if t == MOD && (i.typ != Tristate || st1.modulesVal == NO) then YES else t;
    FlagHolds(g, st1, x, st1.Of(x).(visible := visible), d, plain, p);
    if i.choice.None? { DependenciesHold(g, st1.Put(x, st1.Of(x).(visible := visible)), x, d, plain, p); }
  }

  lemma {:induction false} DependenciesHold(g: Graph, st: State, x: nat, d: iset<nat>, plain: bool, p: State -> bool)
    requires Guarded(g, st, d, plain, p) && x !in d
    ensures Guarded(g, Dependencies(g, st, x), d, plain, p)
    decreases |st.need|, |st.stale|, 3, 0
  {
    hide Guarded, Promoted;
    var i := g.Of(x);
    OptHolds(g, st, i.dirDep, d, plain, p);
    var (st3, v) := OptTri(g, st, i.dirDep);
    FlagHolds(g, st3, x, st3.Of(x).(dirDep := Promoted(g, st3, x, v)), d, plain, p);
    var st4 := st3.Put(x, st3.Of(x).(dirDep := Promoted(g, st3, x, v)));
    var (st5, r) := if i.revDep.Some? then ExprTri(g, st4, i.revDep.value) else (st4, NO);
    if i.revDep.Some? { ExprHolds(g, st4, i.revDep.value, d, plain, p); }
    FlagHolds(g, st5, x, st5.Of(x).(revDep := Promoted(g, st5, x, r)), d, plain, p);
    var st6 := st5.Put(x, st5.Of(x).(revDep := Promoted(g, st5, x, r)));
    var on := i.implied.Some? && st6.Of(x).dirDep != NO;
    var (st7, m) := if on then ExprTri(g, st6, i.implied.value) else (st6, NO);
    if on { ExprHolds(g, st6, i.implied.value, d, plain, p); }
    FlagHolds(g, st7, x, st7.Of(x).(implied := Promoted(g, st7, x, m)), d, plain, p);
  }

  lemma {:induction false} DefaultPropHolds(g: Graph, st: State, x: nat, k: nat, d: iset<nat>, plain: bool,
                                            p: State -> bool)
    requires Guarded(g, st, d, plain, p) && k <= |g.Of(x).defaults|
    ensures Guarded(g, DefaultProp(g, st, x, k).0, d, plain, p)
    decreases |st.need|, |st.stale|, 3, |g.Of(x).defaults| - k
  {
    hide Guarded;
    if k < |g.Of(x).defaults| {
      var e := g.Of(x).defaults[k].cond;
      OptHolds(g, st, e, d, plain, p);
      var (st1, v) := OptTri(g, st, e);
      if v == NO { DefaultPropHolds(g, st1, x, k + 1, d, plain, p); }
    }
  }

  lemma {:induction false} RangePropHolds(g: Graph, st: State, x: nat, k: nat, d: iset<nat>, plain: bool,
                                          p: State -> bool)
    requires Guarded(g, st, d, plain, p) && k <= |g.Of(x).ranges|
    ensures Guarded(g, RangeProp(g, st, x, k).0, d, plain, p)
    decreases |st.need|, |st.stale|, 3, |g.Of(x).ranges| - k
  {
    hide Guarded;
    if k < |g.Of(x).ranges| {
      var e := g.Of(x).ranges[k].cond;
      OptHolds(g, st, e, d, plain, p);
      var (st1, v) := OptTri(g, st, e);
      if v == NO { RangePropHolds(g, st1, x, k + 1, d, plain, p); }
    }
  }

  lemma {:induction false} ChoiceDefaultHolds(g: Graph, st: State, x: nat, k: nat, d: iset<nat>, plain: bool,
                                              p: State -> bool)
    requires Guarded(g, st, d, plain, p) && k <= |g.Of(x).defaults|
    ensures Guarded(g, ChoiceDefault(g, st, x, k).0, d, plain, p)
    decreases |st.need|, |st.stale|, 3, |g.Of(x).defaults| - k
  {
    hide Guarded;
    if k < |g.Of(x).defaults| {
      var f := g.Of(x).defaults[k];
      OptHolds(g, st, f.cond, d, plain, p);
      var (st1, v) := OptTri(g, st, f.cond);
      if !(v != NO && Visible(st1, DefaultSymbol(f))) { ChoiceDefaultHolds(g, st1, x, k + 1, d, plain, p); }
    }
  }

  /** The bounds of a range. */
  lemma {:induction false} ValidateRangeHolds(g: Graph, st: State, x: nat, d: iset<nat>, plain: bool,
                                              p: State -> bool)
    requires Guarded(g, st, d, plain, p) && Writable(g, x, d, plain)
    ensures Guarded(g, ValidateRange(g, st, x), d, plain, p)
    decreases |st.need|, |st.stale|, 4, 0
  {
    hide Guarded;
    var i := g.Of(x);
    if i.typ == IntType || i.typ == HexType {
      RangePropHolds(g, st, x, 0, d, plain, p);
      var (st1, prop) := RangeProp(g, st, x, 0);
      if prop.Some? {
        SymHolds(g, st1, prop.value.lo, d, plain, p);
        var (st2, lo) := RangeVal(g, st1, prop.value.lo, i.typ);
        PutHolds(g, st2, x, st2.Of(x).(val := g.format(lo, i.typ)), d, plain, p);
        SymHolds(g, st2, prop.value.hi, d, plain, p);
        var (st3, hi) := RangeVal(g, st2, prop.value.hi, i.typ);
        PutHolds(g, st3, x, st3.Of(x).(val := g.format(hi, i.typ)), d, plain, p);
      }
    }
  }

  /** The members of a choice outside of d are outside of d as well. */
  lemma MembersOutside(g: Graph, st: State, x: nat, m: nat, d: iset<nat>, plain: bool, p: State -> bool)
    requires Guarded(g, st, d, plain, p) && x !in d && m in g.Of(x).members
    ensures m !in d
  {}

  lemma {:induction false} MemberVisibilitiesHold(g: Graph, st: State, x: nat, k: nat, allSet: bool, d: iset<nat>,
                                                  plain: bool, p: State -> bool)
    requires Guarded(g, st, d, plain, p) && x !in d && k <= |g.Of(x).members|
    ensures Guarded(g, MemberVisibilities(g, st, x, k, allSet).0, d, plain, p)
    decreases |st.need|, |st.stale|, 5, |g.Of(x).members| - k
  {
    hide Guarded;
    if k < |g.Of(x).members| {
      var m := g.Of(x).members[k];
      MembersOutside(g, st, x, m, d, plain, p);
      VisibilityHolds(g, st, m, d, plain, p);
      var st1 := Visibility(g, st, m);
      MemberVisibilitiesHold(g, st1, x, k + 1, allSet && (Visible(st1, m) ==> st1.Of(m).defUser), d, plain, p);
    }
  }

  lemma {:induction false} CalcChoiceHolds(g: Graph, st: State, x: nat, d: iset<nat>, plain: bool, p: State -> bool)
    requires Guarded(g, st, d, plain, p) && Writable(g, x, d, plain)
    ensures Guarded(g, CalcChoice(g, st, x).0, d, plain, p)
    decreases |st.need|, |st.stale|, 6, 0
  {
    hide Guarded;
    MemberVisibilitiesHold(g, st, x, 0, st.Of(x).defUser, d, plain, p);
    var (st1, keep) := MemberVisibilities(g, st, x, 0, st.Of(x).defUser);
    var c2 := st1.Of(x).(defUser := st1.Of(x).defUser && keep);
    FlagHolds(g, st1, x, c2, d, plain, p);
    var st2 := st1.Put(x, c2);
    if !Visible(st2, st2.Of(x).userChosen) {
      ChoiceDefaultHolds(g, st2, x, 0, d, plain, p);
      var st3 := ChoiceDefault(g, st2, x, 0).0;
      PutHolds(g, st3, x, st3.Of(x).(tri := NO), d, plain, p);
    }
  }

  lemma {:induction false} DefaultTriHolds(g: Graph, st: State, x: nat, d: iset<nat>, plain: bool, p: State -> bool)
    requires Guarded(g, st, d, plain, p) && x !in d
    ensures Guarded(g, DefaultTri(g, st, x).0, d, plain, p)
    decreases |st.need|, |st.stale|, 3, |g.Of(x).defaults| + 1
  {
    hide Guarded;
    DefaultPropHolds(g, st, x, 0, d, plain, p);
    var (st1, prop, cond) := DefaultProp(g, st, x, 0);
    if prop.Some? {
      ExprHolds(g, st1, prop.value.value, d, plain, p);
      var (st2, v) := ExprTri(g, st1, prop.value.value);
      FlagHolds(g, st2, x, st2.Of(x).(write := true), d, plain, p);
    }
  }

  lemma {:induction false} TruthValueHolds(g: Graph, st: State, x: nat, d: iset<nat>, plain: bool, p: State -> bool)
    requires Guarded(g, st, d, plain, p) && x !in d
    ensures Guarded(g, TruthValue(g, st, x).0, d, plain, p)
    decreases |st.need|, |st.stale|, 4, 0
  {
    hide Guarded, Settle;
    var c := st.Of(x);
    FlagHolds(g, st, x, c.(write := true), d, plain, p);
    var st1 := if c.revDep != NO then st.Put(x, c.(write := true)) else st;
    if !g.Of(x).isChoice {
      DefaultTriHolds(g, st1, x, d, plain, p);
      var st2 := DefaultTri(g, st1, x).0;
      FlagHolds(g, st2, x, st2.Of(x).(write := true), d, plain, p);
    }
  }

  lemma {:induction false} TextValueHolds(g: Graph, st: State, x: nat, d: iset<nat>, plain: bool, p: State -> bool)
    requires Guarded(g, st, d, plain, p) && x !in d
    ensures Guarded(g, TextValue(g, st, x).0, d, plain, p)
    decreases |st.need|, |st.stale|, 4, 0
  {
    hide Guarded;
    DefaultPropHolds(g, st, x, 0, d, plain, p);
    var (st1, prop, cond) := DefaultProp(g, st, x, 0);
    if prop.Some? && prop.value.value.Sym? {
      var st2 := st1.Put(x, st1.Of(x).(write := true));
      FlagHolds(g, st1, x, st1.Of(x).(write := true), d, plain, p);
      SymHolds(g, st2, prop.value.value.sym, d, plain, p);
    }
  }

  /** Only a tristate symbol gets the value m. */
  lemma TruthValueM(g: Graph, st: State, x: nat, d: iset<nat>, plain: bool, p: State -> bool)
    requires Guarded(g, st, d, plain, p) && Truth(GetType(g, st, x))
    ensures TruthValue(g, st, x).1 == MOD ==> g.Of(x).typ == Tristate
  {
    EverythingClosed(g);
    TruthValueSteps(g, st, x, Everything());
  }

  lemma EverythingClosed(g: Graph)
    ensures Closed(g, Everything())
  {}

  lemma {:induction false} NewValueHolds(g: Graph, st: State, x: nat, d: iset<nat>, plain: bool, p: State -> bool)
    requires Guarded(g, st, d, plain, p) && Writable(g, x, d, plain)
    ensures Guarded(g, NewValue(g, st, x), d, plain, p)
    decreases |st.need|, |st.stale|, 7, 0
  {
    hide Guarded;
    var i := g.Of(x);
    if Truth(GetType(g, st, x)) {
      TruthValueHolds(g, st, x, d, plain, p);
      TruthValueM(g, st, x, d, plain, p);
      var (st1, t) := TruthValue(g, st, x);
      var st2 := st1.Put(x, st1.Of(x).(tri := t, val := Empty(i.typ), chosen := NULL));
      PutHolds(g, st1, x, st1.Of(x).(tri := t, val := Empty(i.typ), chosen := NULL), d, plain, p);
      if i.isChoice && t == YES {
        CalcChoiceHolds(g, st2, x, d, plain, p);
        var (st3, m) := CalcChoice(g, st2, x);
        PutHolds(g, st3, x, st3.Of(x).(chosen := m), d, plain, p);
      }
    } else {
      TextValueHolds(g, st, x, d, plain, p);
      var (st1, v) := TextValue(g, st, x);
      PutHolds(g, st1, x, st1.Of(x).(tri := NO, val := v, chosen := NULL), d, plain, p);
    }
  }

  lemma {:induction false} WriteMembersHold(g: Graph, st: State, members: seq<nat>, d: iset<nat>, plain: bool,
                                            p: State -> bool)
    requires Guarded(g, st, d, plain, p) && forall m :: m in members ==> m !in d
    ensures Guarded(g, WriteMembers(st, members), d, plain, p)
    decreases |members|
  {
    hide Guarded;
    if members != [] {
      var m := members[0];
      FlagHolds(g, st, m, st.Of(m).(write := true), d, plain, p);
      var st1 := if Visible(st, m) then st.Put(m, st.Of(m).(write := true)) else st;
      WriteMembersHold(g, st1, members[1..], d, plain, p);
    }
  }

  lemma ModulesValHolds(g: Graph, st: State, v: Tri, d: iset<nat>, p: State -> bool)
    requires Guarded(g, st, d, true, p)
    ensures Guarded(g, st.(modulesVal := v), d, true, p)
  {
    var st' := st.(modulesVal := v);
    if OnlyTristateM(g, st) {
      forall y: nat | y < |st'.cells| ensures MaybeM(g, st', y) { assert MaybeM(g, st, y); }
    }
    assert Outside(g, st, st', d, true);
  }

  lemma FinishHolds(g: Graph, st: State, x: nat, before: Cell, d: iset<nat>, plain: bool, p: State -> bool)
    requires Guarded(g, st, d, plain, p) && Writable(g, x, d, plain)
    ensures Guarded(g, Finish(g, st, x, before), d, plain, p)
  {
    assert st.need == {};
    hide Guarded;
    var i, c := g.Of(x), st.Of(x);
    var changed := (c.tri, c.val, c.chosen) != (before.tri, before.val, before.chosen);
    var st1 := if changed && x == g.modules then st.(modulesVal := c.tri) else st;
    if x == g.modules { ModulesValHolds(g, st, c.tri, d, p); }
    forall m | m in i.members ensures m !in d { MembersOutside(g, st, x, m, d, plain, p); }
    WriteMembersHold(g, st1, i.members, d, plain, p);
    var st2 := if i.isChoice && c.write then WriteMembers(st1, i.members) else st1;
    FlagHolds(g, st2, x, st2.Of(x).(write := false), d, plain, p);
  }

  lemma {:induction false} CalculateHolds(g: Graph, st: State, x: nat, d: iset<nat>, plain: bool, p: State -> bool)
    requires Guarded(g, st, d, plain, p) && Writable(g, x, d, plain)
    ensures Guarded(g, Calculate(g, st, x), d, plain, p)
    decreases |st.need|, |st.stale|, 8, 0
  {
    hide Guarded;
    var i, before := g.Of(x), st.Of(x);
    if !Truth(i.typ) && !Textual(i.typ) {
      PutHolds(g, st, x, before.(val := i.name, tri := NO), d, plain, p);
    } else {
      FlagHolds(g, st, x, before.(write := false), d, plain, p);
      var st0 := st.Put(x, before.(write := false));
      VisibilityHolds(g, st0, x, d, plain, p);
      var st1 := Visibility(g, st0, x);
      var c := st1.Of(x);
      PutHolds(g, st1, x, c.(write := c.write || c.visible != NO, tri := NO, val := Empty(i.typ), chosen := NULL),
               d, plain, p);
      var st2 := Emptied(g, st1, x);
      NewValueHolds(g, st2, x, d, plain, p);
      var st3 := NewValue(g, st2, x);
      ValidateRangeHolds(g, st3, x, d, plain, p);
      FinishHolds(g, ValidateRange(g, st3, x), x, before, d, plain, p);
    }
  }

  // ----- any number of calls -----

  /** The symbol asked for is valid, and valid symbols stay valid. */
  lemma SteadyCalc(g: Graph, st: State, x: nat)
    requires Steady(g, st)
    ensures Steady(g, Calc(g, st, x)) && Calc(g, st, x).stale <= st.stale && x !in Calc(g, st, x).stale
  {
    EverythingClosed(g);
    CalcSteps(g, st, x, Everything());
    if x in st.stale { CalculateSteps(g, st.(stale := st.stale - {x}), x, Everything()); }
  }

  /** Calls one after the other. */
  function CalcEach(g: Graph, st: State, xs: seq<nat>): State
    decreases |xs|
  {
    if xs == [] then st else CalcEach(g, Calc(g, st, xs[0]), xs[1..])
  }

  lemma {:induction false} EachHolds(g: Graph, st: State, xs: seq<nat>, d: iset<nat>, plain: bool, p: State -> bool)
    requires Guarded(g, st, d, plain, p)
    ensures var st' := CalcEach(g, st, xs);
      Guarded(g, st', d, plain, p) && st'.stale <= st.stale && forall x :: x in xs ==> x !in st'.stale
    decreases |xs|
  {
    hide Guarded;
    if xs != [] {
      CalcHolds(g, st, xs[0], d, plain, p);
      CalledIsValid(g, st, xs[0], d, plain, p);
      EachHolds(g, Calc(g, st, xs[0]), xs[1..], d, plain, p);
    }
  }

  lemma CalledIsValid(g: Graph, st: State, x: nat, d: iset<nat>, plain: bool, p: State -> bool)
    requires Guarded(g, st, d, plain, p)
    ensures Calc(g, st, x).stale <= st.stale && x !in Calc(g, st, x).stale
  {
    SteadyCalc(g, st, x);
  }
}
