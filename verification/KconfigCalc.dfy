/** The code of the evaluator (kconf/symbol.c, kconf/expr.c, kconf/confdata.c): it updates the symbols in
    place, and computes what the functions of KconfigSymbol say.
 */
module KconfigCalc {

  import opened KconfigExpr
  import opened KconfigSymbol
  import opened KconfigCalls
  import Choice = KconfigChoice
  import Values = KconfigValues

  // ----- what the code promises -----

  /** Asking for x, whatever x is: z stays solved if it was, and is solved if it is x. It must be no choice and no
      choice value, and not depend on itself.
   */
  ghost predicate SolvedFor(g: Graph, st: State, st': State, x: nat, d: iset<nat>, z: nat) {
    var user := Values.UserOf(st.Of(z));
    Values.Alone(g, d, z) && OwnMembers(g) && Steady(g, st) && Values.GoodAt(g, st, z, user) ==>
      Values.GoodAt(g, st', z, user) && (z == x ==> Values.Solves(g, st', x, user))
  }

  ghost predicate Solved(g: Graph, st: State, st': State, x: nat) {
    forall d: iset<nat>, z: nat :: SolvedFor(g, st, st', x, d, z)
  }

  /** And of every choice that has come out as y, the members calculated so far stay right: y if chosen, else n. */
  ghost predicate ChosenFor(g: Graph, st: State, st': State, c: nat, d: iset<nat>) {
    Choice.Exclusive(g, c, d) && Choice.AllAsk(g, c) && OwnMembers(g) &&
    (Choice.Waiting(g, st, c) || Choice.Running(g, st, c)) ==>
      Choice.Waiting(g, st', c) || Choice.Running(g, st', c)
  }

  ghost predicate Exclusively(g: Graph, st: State, st': State) {
    forall c: nat, d: iset<nat> :: ChosenFor(g, st, st', c, d)
  }

  lemma OneSolved(g: Graph, st: State, x: nat, d: iset<nat>, z: nat)
    ensures SolvedFor(g, st, Calc(g, st, x), x, d, z)
  {
    hide Calc, Values.Solves, Values.Alone, OwnMembers;
    var user := Values.UserOf(st.Of(z));
    if Values.Alone(g, d, z) && OwnMembers(g) && Steady(g, st) && Values.GoodAt(g, st, z, user) {
      Values.EachGood(g, d, st, [x], z, user);
      assert [x][1..] == [] && CalcEach(g, st, [x]) == Calc(g, st, x);
      assert x in [x];
    }
  }

  lemma OneChosen(g: Graph, st: State, x: nat, c: nat, d: iset<nat>)
    ensures ChosenFor(g, st, Calc(g, st, x), c, d)
  {
    hide Calc, Choice.Exclusive, Choice.Waiting, Choice.Running, Choice.AllAsk, OwnMembers;
    if Choice.Exclusive(g, c, d) && Choice.AllAsk(g, c) && OwnMembers(g) &&
       (Choice.Waiting(g, st, c) || Choice.Running(g, st, c)) {
      Choice.EachKeeps(g, st, c, [x], d);
      assert [x][1..] == [] && CalcEach(g, st, [x]) == Calc(g, st, x);
    }
  }

  lemma CalcSolves(g: Graph, st: State, x: nat)
    ensures Solved(g, st, Calc(g, st, x), x) && Exclusively(g, st, Calc(g, st, x))
    ensures Steady(g, st) ==> Steady(g, Calc(g, st, x)) && x !in Calc(g, st, x).stale
  {
    hide Calc, SolvedFor, ChosenFor;
    forall d: iset<nat>, z: nat ensures SolvedFor(g, st, Calc(g, st, x), x, d, z) { OneSolved(g, st, x, d, z); }
    forall c: nat, d: iset<nat> ensures ChosenFor(g, st, Calc(g, st, x), c, d) { OneChosen(g, st, x, c, d); }
    if Steady(g, st) { SteadyCalc(g, st, x); }
  }

  /** After sym_clear_all_valid and calls for the symbols xs in this order, whatever symbols they are: z has the value
      of its equation if it is among them or is MODULES. MODULES must be bool and not depend on tristate symbols.
   */
  ghost predicate AllSolvedFor(g: Graph, st: State, st': State, xs: seq<nat>, d: iset<nat>, m: iset<nat>, z: nat) {
    var user := Values.UserOf(st.Of(z));
    Values.Alone(g, d, z) && OwnMembers(g) && st.need == {} && z < |st.cells| && z in st.stale &&
    (g.modules in st.stale ==> Values.ModulesAlone(g, m) && OnlyTristateM(g, st)) ==>
      && Values.GoodAt(g, st', z, user)
      && (z in xs || z == g.modules ==> z !in st'.stale && Values.Solves(g, st', z, user))
  }

  ghost predicate AllSolved(g: Graph, st: State, st': State, xs: seq<nat>) {
    forall d: iset<nat>, m: iset<nat>, z: nat :: AllSolvedFor(g, st, st', xs, d, m, z)
  }

  /** And of a choice that has come out as y, all of whose members were asked for, exactly one member is y. */
  ghost predicate AllChosenFor(g: Graph, st: State, st': State, xs: seq<nat>, c: nat, d: iset<nat>) {
    Choice.Exclusive(g, c, d) && Choice.AllAsk(g, c) && OwnMembers(g) && Choice.Prepared(g, st, c) && c in st.stale &&
    (forall m :: m in g.Of(c).members ==> m in st.stale && m in xs) ==>
      c !in st'.stale && st'.Of(c).tri == YES ==> Choice.OneChosen(g, st', c)
  }

  ghost predicate AllChosen(g: Graph, st: State, st': State, xs: seq<nat>) {
    forall c: nat, d: iset<nat> :: AllChosenFor(g, st, st', xs, c, d)
  }

  lemma CallsSolve(g: Graph, st: State, xs: seq<nat>)
    ensures var st' := CalcEach(g, Calc(g, st, g.modules), xs);
      AllSolved(g, st, st', xs) && AllChosen(g, st, st', xs)
  {
    var st' := CalcEach(g, Calc(g, st, g.modules), xs);
    hide Calc, AllSolvedFor, AllChosenFor;
    forall d: iset<nat>, m: iset<nat>, z: nat ensures AllSolvedFor(g, st, st', xs, d, m, z) {
      AllCallsSolve(g, st, xs, d, m, z);
    }
    forall c: nat, d: iset<nat> ensures AllChosenFor(g, st, st', xs, c, d) { AllCallsChoose(g, st, xs, c, d); }
  }

  lemma AllCallsSolve(g: Graph, st: State, xs: seq<nat>, d: iset<nat>, m: iset<nat>, z: nat)
    ensures AllSolvedFor(g, st, CalcEach(g, Calc(g, st, g.modules), xs), xs, d, m, z)
  {
    hide Calc, CalcEach, Values.Solves, Values.Alone, Values.ModulesAlone, OwnMembers, OnlyTristateM;
    if Values.Alone(g, d, z) && OwnMembers(g) && st.need == {} && z < |st.cells| && z in st.stale &&
       (g.modules in st.stale ==> Values.ModulesAlone(g, m) && OnlyTristateM(g, st)) {
      Values.EquationsHold(g, d, m, st, xs, z);
    }
  }

  lemma AllCallsChoose(g: Graph, st: State, xs: seq<nat>, c: nat, d: iset<nat>)
    ensures AllChosenFor(g, st, CalcEach(g, Calc(g, st, g.modules), xs), xs, c, d)
  {
    hide Calc, CalcEach, Choice.OneChosen, Choice.Exclusive, OwnMembers;
    if Choice.Exclusive(g, c, d) && Choice.AllAsk(g, c) && OwnMembers(g) && Choice.Prepared(g, st, c) &&
       c in st.stale && (forall m :: m in g.Of(c).members ==> m in st.stale && m in xs) {
      Choice.ChoiceAfterClearing(g, st, c, xs, d);
    }
  }

  /** What clearing leaves behind: choices that are not calculated wait for it, */
  ghost predicate WaitsFor(g: Graph, st: State, st': State, c: nat, d: iset<nat>) {
    Choice.Exclusive(g, c, d) && Choice.Prepared(g, st, c) && c in st.stale &&
    (forall m :: m in g.Of(c).members ==> m in st.stale) ==>
      Choice.Waiting(g, st', c)
  }

  /** and no symbol is m that may not be. */
  ghost predicate SettledFor(g: Graph, st: State, st': State, d: iset<nat>) {
    OnlyTristateM(g, st) && st.modulesVal == st.Of(g.modules).tri && g.Of(g.modules).typ == Boolean &&
    Closed(g, d) && g.modules in d && (forall y :: y in d ==> g.Of(y).typ != Tristate) &&
    g.modules < |st.cells| && st.need == {} ==>
      Settled(g, st')
  }

  /** MODULES is solved, whatever else became valid is, choices wait, and the values are fit to be read. */
  ghost predicate Begins(g: Graph, st: State, st': State) {
    && AllSolved(g, st, st', [])
    && (forall c: nat, d: iset<nat> :: WaitsFor(g, st, st', c, d))
    && forall d: iset<nat> :: SettledFor(g, st, st', d)
  }

  lemma ClearingBegins(g: Graph, st: State)
    ensures var st0 := Cleared(st); Begins(g, st0, Calc(g, st0, g.modules))
  {
    var st0 := Cleared(st);
    var st' := Calc(g, st0, g.modules);
    CallsSolve(g, st0, []);
    assert CalcEach(g, st', []) == st';
    hide Calc, AllSolved, Choice.Exclusive, Closed;
    forall c: nat, d: iset<nat> ensures WaitsFor(g, st0, st', c, d) { OneWaits(g, st0, c, d); }
    forall d: iset<nat> ensures SettledFor(g, st0, st', d) { OneSettled(g, st, d); }
  }

  lemma OneWaits(g: Graph, st: State, c: nat, d: iset<nat>)
    ensures WaitsFor(g, st, Calc(g, st, g.modules), c, d)
  {
    hide Calc, Choice.Exclusive, Choice.Waiting;
    if Choice.Exclusive(g, c, d) && Choice.Prepared(g, st, c) && c in st.stale &&
       (forall m :: m in g.Of(c).members ==> m in st.stale) {
      Choice.WaitsAfterClearing(g, st, c, d);
    }
  }

  lemma OneSettled(g: Graph, st: State, d: iset<nat>)
    ensures SettledFor(g, Cleared(st), Calc(g, Cleared(st), g.modules), d)
  {
    var st0 := Cleared(st);
    hide Calc, Closed, OnlyTristateM, Settled;
    if OnlyTristateM(g, st0) && st0.modulesVal == st0.Of(g.modules).tri && g.Of(g.modules).typ == Boolean &&
       Closed(g, d) && g.modules in d && (forall y :: y in d ==> g.Of(y).typ != Tristate) &&
       g.modules < |st0.cells| && st0.need == {} {
      forall y: nat | y < |st0.cells| ensures y in st0.stale { assert Number(y); }
      ModulesFirst(g, st0, d);
    }
  }

  /** No symbol is valid. */
  function Cleared(st: State): State { st.(stale := set y: nat | Number(y) && y < |st.cells|) }

  // ----- the code -----

  class Symbols {
    const g: Graph
    var cells: seq<Cell>
    var stale: set<nat>
    var need: set<nat>
    var modulesVal: Tri

    function View(): State
      reads this
    {
      State(cells, stale, need, modulesVal)
    }

    constructor (g: Graph, st: State)
      ensures this.g == g && View() == st
    {
      this.g, cells, stale, need, modulesVal := g, st.cells, st.stale, st.need, st.modulesVal;
    }

    /** A store into one symbol. */
    method Put(x: nat, c: Cell)
      modifies this
      ensures View() == old(View()).Put(x, c)
    {
      if x < |cells| {
        cells := cells[x := c];
      }
    }

    /** expr_calc_value. */
    method CalcExpr(e: Expr) returns (v: Tri)
      modifies this
      ensures (View(), v) == ExprTri(g, old(View()), e)
      decreases |need|, |stale|, 1, Size(e)
    {
      hide Calc, Visibility;
      match e
      case Sym(s) =>
        CalcSymbol(s);
        v := Curr(s, EnvOf(g, View()));
      case Not(a) =>
        var v1 := CalcExpr(a);
        v := 2 - v1;
      case And(l, r) =>
        var v1 := CalcExpr(l);
        var v2 := CalcExpr(r);
        v := Min(v1, v2);
      case Or(l, r) =>
        var v1 := CalcExpr(l);
        var v2 := CalcExpr(r);
        v := Max(v1, v2);
      case Cmp(op, l, r) =>
        CalcSymbol(l);
        CalcSymbol(r);
        ReadValue(l);
        ReadValue(r);
        v := if Holds(op, Relate(l, r, EnvOf(g, View()))) then YES else NO;
    }

    method CalcOpt(e: Option<Expr>) returns (v: Tri)
      modifies this
      ensures (View(), v) == OptTri(g, old(View()), e)
      decreases |need|, |stale|, 2, 0
    {
      if e.None? {
        return YES;
      }
      v := CalcExpr(e.value);
    }

    method CalcSymbol(s: Symbol)
      modifies this
      ensures View() == CalcSym(g, old(View()), s)
      decreases |need|, |stale|, 0, 1
    {
      if s.Config? {
        CalcValue(s.id);
      }
    }

    /** What sym_get_string_value calculates. */
    method ReadValue(s: Symbol)
      modifies this
      ensures View() == ReadString(g, old(View()), s)
      decreases |need|, |stale|, 0, 1
    {
      if s.Truth() && Curr(s, EnvOf(g, View())) == MOD {
        CalcValue(g.modules);
      }
    }

    /** sym_calc_visibility. */
    method CalcVisibility(x: nat)
      modifies this
      ensures View() == Visibility(g, old(View()), x)
      decreases |need|, |stale|, 5, 0
    {
      hide Calc, ExprTri, Dependencies;
      var i := g.Of(x);
      var tri: Tri := NO;
      ghost var st0 := View();
      var k := 0;
      while k < |i.prompts|
        invariant 0 <= k <= |i.prompts| && NotMore(View(), st0)
        invariant Prompts(g, View(), x, k, tri) == Prompts(g, st0, x, 0, NO)
      {
        var v := CalcOpt(i.prompts[k]);
        tri := Max(tri, Unhidden(g, View(), x, v));
        k := k + 1;
      }
      if tri == MOD && (i.typ != Tristate || modulesVal == NO) {
        tri := YES;
      }
      Put(x, View().Of(x).(visible := tri));
      if i.choice.None? {
        CalcDependencies(x);
      }
    }

    method CalcDependencies(x: nat)
      modifies this
      ensures View() == Dependencies(g, old(View()), x)
      decreases |need|, |stale|, 4, 0
    {
      hide Calc, ExprTri, Visibility;
      var i := g.Of(x);
      var tri := CalcOpt(i.dirDep);
      Put(x, View().Of(x).(dirDep := Promoted(g, View(), x, tri)));
      tri := NO;
      if i.revDep.Some? {
        tri := CalcExpr(i.revDep.value);
      }
      Put(x, View().Of(x).(revDep := Promoted(g, View(), x, tri)));
      tri := NO;
      if i.implied.Some? && View().Of(x).dirDep != NO {
        tri := CalcExpr(i.implied.value);
      }
      Put(x, View().Of(x).(implied := Promoted(g, View(), x, tri)));
    }

    /** sym_get_default_prop. */
    method GetDefaultProp(x: nat) returns (prop: Option<Default>, cond: Tri)
      modifies this
      ensures (View(), prop, cond) == DefaultProp(g, old(View()), x, 0)
      decreases |need|, |stale|, 3, 1
    {
      hide Calc, ExprTri;
      ghost var st0 := View();
      for k := 0 to |g.Of(x).defaults|
        invariant NotMore(View(), st0)
        invariant DefaultProp(g, View(), x, k) == DefaultProp(g, st0, x, 0)
      {
        var v := CalcOpt(g.Of(x).defaults[k].cond);
        if v != NO {
          return Some(g.Of(x).defaults[k]), v;
        }
      }
      return None, NO;
    }

    /** sym_get_range_prop. */
    method GetRangeProp(x: nat) returns (prop: Option<Range>)
      modifies this
      ensures (View(), prop) == RangeProp(g, old(View()), x, 0)
      decreases |need|, |stale|, 3, 1
    {
      hide Calc, ExprTri;
      ghost var st0 := View();
      for k := 0 to |g.Of(x).ranges|
        invariant NotMore(View(), st0)
        invariant RangeProp(g, View(), x, k) == RangeProp(g, st0, x, 0)
      {
        var v := CalcOpt(g.Of(x).ranges[k].cond);
        if v != NO {
          return Some(g.Of(x).ranges[k]);
        }
      }
      return None;
    }

    /** sym_get_range_val. */
    method GetRangeVal(s: Symbol, typ: SymType) returns (v: int)
      modifies this
      ensures (View(), v) == RangeVal(g, old(View()), s, typ)
      decreases |need|, |stale|, 2, 0
    {
      hide Calc;
      CalcSymbol(s);
      var base := if s.Type() == IntType || s.Type() == HexType then s.Type() else typ;
      v := g.number(ValOf(g, View(), s), base);
    }

    /** sym_validate_range. */
    method CheckRange(x: nat)
      modifies this
      ensures View() == ValidateRange(g, old(View()), x)
      decreases |need|, |stale|, 4, 0
    {
      hide Calc, RangeProp, RangeVal;
      var typ := g.Of(x).typ;
      if typ != IntType && typ != HexType {
        return;
      }
      var prop := GetRangeProp(x);
      if prop.None? {
        return;
      }
      var val := g.number(View().Of(x).val, typ);
      var val2 := GetRangeVal(prop.value.lo, typ);
      if val >= val2 {
        val2 := GetRangeVal(prop.value.hi, typ);
        if val <= val2 {
          return;
        }
      }
      Put(x, View().Of(x).(val := g.format(val2, typ)));
    }

    /** sym_choice_default. */
    method GetChoiceDefault(x: nat) returns (r: int)
      modifies this
      ensures (View(), r) == ChoiceDefault(g, old(View()), x, 0)
      decreases |need|, |stale|, 3, 1
    {
      hide Calc, ExprTri;
      ghost var st0 := View();
      for k := 0 to |g.Of(x).defaults|
        invariant NotMore(View(), st0)
        invariant ChoiceDefault(g, View(), x, k) == ChoiceDefault(g, st0, x, 0)
      {
        var v := CalcOpt(g.Of(x).defaults[k].cond);
        if v != NO {
          var d := DefaultSymbol(g.Of(x).defaults[k]);
          if Visible(View(), d) {
            return d;
          }
        }
      }
      var members := g.Of(x).members;
      for k := 0 to |members|
        invariant FirstVisible(View(), members[k..]) == FirstVisible(View(), members)
        invariant (View(), FirstVisible(View(), members)) == ChoiceDefault(g, st0, x, 0)
      {
        assert members[k..][0] == members[k] && members[k..][1..] == members[k + 1..];
        if Visible(View(), members[k]) {
          return members[k];
        }
      }
      return NULL;
    }

    /** sym_calc_choice. */
    method FindChoice(x: nat) returns (r: int)
      modifies this
      ensures (View(), r) == CalcChoice(g, old(View()), x)
      decreases |need|, |stale|, 6, 0
    {
      hide Calc, Visibility, ChoiceDefault;
      var members := g.Of(x).members;
      var flags := View().Of(x).defUser;
      ghost var st0, set0 := View(), flags;
      for k := 0 to |members|
        invariant NotMore(View(), st0)
        invariant MemberVisibilities(g, View(), x, k, flags) == MemberVisibilities(g, st0, x, 0, set0)
      {
        CalcVisibility(members[k]);
        flags := flags && (Visible(View(), members[k]) ==> View().Of(members[k]).defUser);
      }
      Put(x, View().Of(x).(defUser := View().Of(x).defUser && flags));
      r := View().Of(x).userChosen;
      if Visible(View(), r) {
        return;
      }
      r := GetChoiceDefault(x);
      if r == NULL {
        Put(x, View().Of(x).(tri := NO));
      }
    }

    /** The value of a bool or tristate symbol, in sym_calc_value. */
    method CalcTruthValue(x: nat) returns (t: Tri)
      modifies this
      ensures (View(), t) == TruthValue(g, old(View()), x)
      decreases |need|, |stale|, 4, 0
    {
      hide Calc, ExprTri, DefaultProp;
      var i, c := g.Of(x), View().Of(x);
      t := NO;
      if i.choice.Some? && c.visible == YES {
        t := if View().Of(i.choice.value).chosen == x then YES else NO;
      } else {
        if c.visible != NO && c.defUser {
          t := Min(c.userTri, c.visible);
        } else {
          if c.revDep != NO {
            Put(x, View().Of(x).(write := true));
          }
          if !i.isChoice {
            t := CalcDefaultTri(x);
            if View().Of(x).implied != NO {
              t := Max(t, View().Of(x).implied);
              Put(x, View().Of(x).(write := true));
            }
          }
        }
        t := Max(t, View().Of(x).revDep);
      }
      if t == MOD && (GetType(g, View(), x) == Boolean || View().Of(x).implied == YES) {
        t := YES;
      }
    }

    method CalcDefaultTri(x: nat) returns (t: Tri)
      modifies this
      ensures (View(), t) == DefaultTri(g, old(View()), x)
      decreases |need|, |stale|, 3, |g.Of(x).defaults| + 2
    {
      hide Calc, ExprTri, DefaultProp;
      var prop, cond := GetDefaultProp(x);
      t := NO;
      if prop.Some? {
        t := CalcExpr(prop.value.value);
        t := Min(t, cond);
        if t != NO {
          Put(x, View().Of(x).(write := true));
        }
      }
    }

    /** The value of an int, hex or string symbol, in sym_calc_value. */
    method CalcTextValue(x: nat) returns (v: string)
      modifies this
      ensures (View(), v) == TextValue(g, old(View()), x)
      decreases |need|, |stale|, 4, 0
    {
      hide Calc, ExprTri, DefaultProp;
      var c := View().Of(x);
      if c.visible != NO && c.defUser {
        return c.userVal;
      }
      v := "";
      var prop, cond := GetDefaultProp(x);
      if prop.Some? && prop.value.value.Sym? {
        Put(x, View().Of(x).(write := true));
        CalcSymbol(prop.value.value.sym);
        v := ValOf(g, View(), prop.value.value.sym);
      }
    }

    /** set_all_choice_values. */
    method SetAllChoiceValues(x: nat)
      modifies this
      ensures View() == SetAll(g, old(View()), x)
    {
      var members := g.Of(x).members;
      ghost var st0 := View();
      for k := 0 to |members|
        invariant UnsetMembers(View(), members[k..]) == UnsetMembers(st0, members)
      {
        assert members[k..][0] == members[k] && members[k..][1..] == members[k + 1..];
        if !View().Of(members[k]).defUser {
          Put(members[k], View().Of(members[k]).(userTri := NO));
        }
      }
      Put(x, View().Of(x).(defUser := true));
      stale := stale + {x};
      need := need - {x};
    }

    /** The new `curr`, in sym_calc_value. */
    method CalcNewValue(x: nat)
      modifies this
      ensures View() == NewValue(g, old(View()), x)
      decreases |need|, |stale|, 7, 0
    {
      hide Calc, TruthValue, TextValue, CalcChoice;
      var i := g.Of(x);
      if Truth(GetType(g, View(), x)) {
        var t := CalcTruthValue(x);
        Put(x, View().Of(x).(tri := t, val := Empty(i.typ), chosen := NULL));
        if i.isChoice && t == YES {
          var d := FindChoice(x);
          Put(x, View().Of(x).(chosen := d));
        }
      } else {
        var v := CalcTextValue(x);
        Put(x, View().Of(x).(tri := NO, val := v, chosen := NULL));
      }
    }

    /** The end of sym_calc_value. */
    method FinishValue(x: nat, before: Cell)
      modifies this
      ensures View() == Finish(g, old(View()), x, before)
    {
      hide SetAll;
      var i, c := g.Of(x), View().Of(x);
      if (c.tri, c.val, c.chosen) != (before.tri, before.val, before.chosen) && x == g.modules {
        modulesVal := c.tri;
      }
      if i.isChoice && c.write {
        ghost var st1 := View();
        for k := 0 to |i.members|
          invariant WriteMembers(View(), i.members[k..]) == WriteMembers(st1, i.members)
        {
          assert i.members[k..][0] == i.members[k] && i.members[k..][1..] == i.members[k + 1..];
          if Visible(View(), i.members[k]) {
            Put(i.members[k], View().Of(i.members[k]).(write := true));
          }
        }
      }
      if i.auto {
        Put(x, View().Of(x).(write := false));
      }
      if x in need {
        SetAllChoiceValues(x);
      }
    }

    /** sym_calc_value. It ends on every graph of symbols. */
    method CalcValue(x: nat)
      modifies this
      ensures View() == Calc(g, old(View()), x)
      ensures Solved(g, old(View()), View(), x) && Exclusively(g, old(View()), View())
      ensures old(Steady(g, View())) ==> Steady(g, View()) && x !in stale
      decreases |need|, |stale|, 0, 0
    {
      hide Calculate, Solved, Exclusively;
      CalcSolves(g, View(), x);
      if x !in stale {
        return;
      }
      Validated(View(), x);
      var choice := g.Of(x).choice;
      if choice.Some? && x in need {
        need := need - {x};
        CalcValue(choice.value);
      }
      stale := stale - {x};
      CalculateValue(x);
    }

    method CalculateValue(x: nat)
      modifies this
      ensures View() == Calculate(g, old(View()), x)
      decreases |need|, |stale|, 8, 0
    {
      hide Visibility, NewValue, ValidateRange, Finish, Calc;
      var i, before := g.Of(x), View().Of(x);
      if !Truth(i.typ) && !Textual(i.typ) {
        Put(x, before.(val := i.name, tri := NO));
        return;
      }
      Put(x, before.(write := false));
      CalcVisibility(x);
      var c := View().Of(x);
      Put(x, c.(write := c.write || c.visible != NO, tri := NO, val := Empty(i.typ), chosen := NULL));
      CalcNewValue(x);
      CheckRange(x);
      FinishValue(x, before);
    }

    /** sym_clear_all_valid. */
    method ClearAllValid()
      modifies this
      ensures Begins(g, Cleared(old(View())), View())
      ensures View() == Calc(g, Cleared(old(View())), g.modules)
    {
      hide Calc, Begins;
      ClearingBegins(g, View());
      stale := Cleared(View()).stale;
      CalcValue(g.modules);
    }

    /** What conf_write calculates: it clears, and asks for the symbols in the order of the menu. */
    method CalcAll(xs: seq<nat>)
      modifies this
      ensures AllSolved(g, Cleared(old(View())), View(), xs) && AllChosen(g, Cleared(old(View())), View(), xs)
    {
      hide Calc, Solved, Exclusively;
      ghost var st := Cleared(View());
      ClearAllValid();
      ghost var st1 := View();
      for k := 0 to |xs|
        invariant CalcEach(g, View(), xs[k..]) == CalcEach(g, st1, xs)
      {
        assert xs[k..][0] == xs[k] && xs[k..][1..] == xs[k + 1..];
        CalcValue(xs[k]);
      }
      CallsSolve(g, st, xs);
    }
  }
}
