/** What the values mean (kconf/symbol.c): whatever it is asked for, and in whatever order, the memoising evaluation
    solves the equation of every symbol that it makes valid, is no choice or choice value, and does not depend on
    itself. (sym_check_deps looks for such cycles when the Kconfig files are read; it does not follow `imply` and the
    ends of ranges.) The symbols that it depends on may be choices, choice values and parts of cycles.
 */
module KconfigValues {

  import opened KconfigExpr
  import opened KconfigSymbol
  import opened KconfigCalls
  import opened KconfigChoice

  /** What the user has set. */
  datatype User = User(tri: Tri, val: string)

  // ----- the equation of a bool or tristate symbol -----

  /** The symbol has no m, being bool or while MODULES is n. */
  predicate Binary(g: Graph, st: State, x: nat) {
    g.Of(x).typ == Boolean || (g.Of(x).typ == Tristate && st.modulesVal == NO)
  }

  function AsBinary(g: Graph, st: State, x: nat, t: Tri): Tri { if t == MOD && Binary(g, st, x) then YES else t }

  /** `depends on`. */
  function DirTri(g: Graph, st: State, x: nat): Tri {
    AsBinary(g, st, x, ValueOpt(g.Of(x).dirDep, EnvOf(g, st)))
  }

  /** `select`: what the selecting symbols ask for. */
  function RevTri(g: Graph, st: State, x: nat): Tri {
    var e := g.Of(x).revDep;
    if e.None? then NO else AsBinary(g, st, x, Value(e.value, EnvOf(g, st)))
  }

  /** `imply`, which counts only while the dependencies hold. */
  function ImpliedTri(g: Graph, st: State, x: nat): Tri {
    var e := g.Of(x).implied;
    if e.None? || DirTri(g, st, x) == NO then NO else AsBinary(g, st, x, Value(e.value, EnvOf(g, st)))
  }

  /** `default`: the first one from number k on whose condition is not n, limited by its condition. */
  function FirstDefault(g: Graph, st: State, x: nat, k: nat): Tri
    decreases |g.Of(x).defaults| - k
  {
    if k >= |g.Of(x).defaults| then NO
    else
      var f, env := g.Of(x).defaults[k], EnvOf(g, st);
      if ValueOpt(f.cond, env) != NO then Min(Value(f.value, env), ValueOpt(f.cond, env))
      else FirstDefault(g, st, x, k + 1)
  }

  /** The user's value, limited by the visibility, or else the default and `imply`; at least what is selected. */
  function Wanted(g: Graph, st: State, x: nat, user: Option<User>): Tri {
    var v := VisibleTri(g, st, x);
    Max(if v != NO && user.Some? then Min(user.value.tri, v) else Max(FirstDefault(g, st, x, 0), ImpliedTri(g, st, x)),
        RevTri(g, st, x))
  }

  function TriEquation(g: Graph, st: State, x: nat, user: Option<User>): Tri {
    var t := Wanted(g, st, x, user);
    if t == MOD && (Binary(g, st, x) || ImpliedTri(g, st, x) == YES) then YES else t
  }

  /** `select` is a lower limit. The visibility is an upper limit for the user's value, but for what is selected,
      exactly unless the limit is m, y is implied, and something asks for m: `select`, or a value of the user's.
   */
  lemma Limits(g: Graph, st: State, x: nat, user: Option<User>)
    requires user.Some? && VisibleTri(g, st, x) != NO
    ensures var limit := Max(VisibleTri(g, st, x), RevTri(g, st, x));
      && RevTri(g, st, x) <= TriEquation(g, st, x, user)
      && (TriEquation(g, st, x, user) <= limit <==>
          !(limit == MOD && ImpliedTri(g, st, x) == YES && (RevTri(g, st, x) == MOD || user.value.tri != NO)))
  {}

  /** A tristate symbol with a prompt `if m`, implied y and set to m, becomes y. */
  lemma ImplyLifts(g: Graph, st: State)
    requires g.infos ==
      [Info("A", Tristate, [Some(Sym(Mod))], [], [], None, None, Some(Sym(Yes)), false, [], None, false)]
    requires st.modulesVal == YES
    ensures VisibleTri(g, st, 0) == MOD && RevTri(g, st, 0) == NO
    ensures TriEquation(g, st, 0, Some(User(MOD, ""))) == YES
  {
    assert g.Of(0).prompts[0] == Some(Sym(Mod));
    assert PromptsTri(g, st, 0, 1, MOD) == MOD;
  }

  // ----- the equation of an int, hex or string symbol -----

  /** The first default from number k on whose condition is not n, if it is a symbol. */
  function TextDefault(g: Graph, st: State, x: nat, k: nat): string
    decreases |g.Of(x).defaults| - k
  {
    if k >= |g.Of(x).defaults| then ""
    else
      var f := g.Of(x).defaults[k];
      if ValueOpt(f.cond, EnvOf(g, st)) == NO then TextDefault(g, st, x, k + 1)
      else if f.value.Sym? then ValOf(g, st, f.value.sym)
      else ""
  }

  function TextWanted(g: Graph, st: State, x: nat, user: Option<User>): string {
    if VisibleTri(g, st, x) != NO && user.Some? then user.value.val else TextDefault(g, st, x, 0)
  }

  /** The first range from number k on whose condition is not n. */
  function FirstRange(g: Graph, st: State, x: nat, k: nat): (r: Option<Range>)
    ensures r.Some? ==> r.value in g.Of(x).ranges
    decreases |g.Of(x).ranges| - k
  {
    if k >= |g.Of(x).ranges| then None
    else if ValueOpt(g.Of(x).ranges[k].cond, EnvOf(g, st)) != NO then Some(g.Of(x).ranges[k])
    else FirstRange(g, st, x, k + 1)
  }

  predicate Ranged(g: Graph, st: State, x: nat) {
    (g.Of(x).typ == IntType || g.Of(x).typ == HexType) && FirstRange(g, st, x, 0).Some?
  }

  /** An end of a range, read in its own base if it has one. */
  function Bound(g: Graph, st: State, s: Symbol, typ: SymType): int {
    g.number(ValOf(g, st, s), if s.Type() == IntType || s.Type() == HexType then s.Type() else typ)
  }

  /** The nearest value in the range. */
  function Clamp(g: Graph, st: State, x: nat, v: string): string {
    var typ := g.Of(x).typ;
    if !Ranged(g, st, x) then v
    else
      var r := FirstRange(g, st, x, 0).value;
      if g.number(v, typ) < Bound(g, st, r.lo, typ) then g.format(Bound(g, st, r.lo, typ), typ)
      else if g.number(v, typ) > Bound(g, st, r.hi, typ) then g.format(Bound(g, st, r.hi, typ), typ)
      else v
  }

  function TextEquation(g: Graph, st: State, x: nat, user: Option<User>): string {
    Clamp(g, st, x, TextWanted(g, st, x, user))
  }

  predicate Between(lo: int, v: int, hi: int) { lo <= v <= hi }

  /** The value is in the range, if that is one, exactly when the end that replaces a value outside is read as one in
      the range.
   */
  lemma InRange(g: Graph, st: State, x: nat, user: Option<User>)
    requires Ranged(g, st, x)
    ensures var r, typ, v := FirstRange(g, st, x, 0).value, g.Of(x).typ, TextWanted(g, st, x, user);
      var lo, hi := Bound(g, st, r.lo, typ), Bound(g, st, r.hi, typ);
      lo <= hi ==>
        (Between(lo, g.number(TextEquation(g, st, x, user), typ), hi) <==>
          && (g.number(v, typ) < lo ==> Between(lo, g.number(g.format(lo, typ), typ), hi))
          && (g.number(v, typ) > hi ==> Between(lo, g.number(g.format(hi, typ), typ), hi)))
  {}

  // ----- what the equations read -----

  /** The symbols that decide the default are valid. */
  ghost predicate DefaultsValid(g: Graph, st: State, x: nat, k: nat)
    decreases |g.Of(x).defaults| - k
  {
    k < |g.Of(x).defaults| ==>
      var f := g.Of(x).defaults[k];
      && ValidIn(st, OptNumbers(f.cond))
      && if ValueOpt(f.cond, EnvOf(g, st)) != NO then ValidIn(st, Numbers(f.value)) else DefaultsValid(g, st, x, k + 1)
  }

  ghost predicate LimitsValid(g: Graph, st: State, x: nat) {
    var i := g.Of(x);
    && PromptsValid(g, st, x, 0) && ValidIn(st, OptNumbers(i.dirDep)) && ValidIn(st, OptNumbers(i.revDep))
    && (DirTri(g, st, x) != NO ==> ValidIn(st, OptNumbers(i.implied)))
  }

  ghost predicate TextDefaultsValid(g: Graph, st: State, x: nat, k: nat)
    decreases |g.Of(x).defaults| - k
  {
    k < |g.Of(x).defaults| ==>
      var f := g.Of(x).defaults[k];
      && ValidIn(st, OptNumbers(f.cond))
      && if ValueOpt(f.cond, EnvOf(g, st)) == NO then TextDefaultsValid(g, st, x, k + 1)
         else f.value.Sym? ==> ValidIn(st, SymNumbers(f.value.sym))
  }

  ghost predicate RangesValid(g: Graph, st: State, x: nat, k: nat)
    decreases |g.Of(x).ranges| - k
  {
    k < |g.Of(x).ranges| ==>
      && ValidIn(st, OptNumbers(g.Of(x).ranges[k].cond))
      && (ValueOpt(g.Of(x).ranges[k].cond, EnvOf(g, st)) == NO ==> RangesValid(g, st, x, k + 1))
  }

  ghost predicate RangeValid(g: Graph, st: State, x: nat, v: string) {
    var typ := g.Of(x).typ;
    typ == IntType || typ == HexType ==>
      && RangesValid(g, st, x, 0)
      && (Ranged(g, st, x) ==>
        var r := FirstRange(g, st, x, 0).value;
        && ValidIn(st, SymNumbers(r.lo))
        && (g.number(v, typ) >= Bound(g, st, r.lo, typ) ==> ValidIn(st, SymNumbers(r.hi))))
  }

  /** The symbol's value is that of its equation, and what the equation reads is valid. */
  ghost predicate SolvesTri(g: Graph, st: State, x: nat, user: Option<User>) {
    && LimitsValid(g, st, x)
    && (VisibleTri(g, st, x) == NO || user.None? ==> DefaultsValid(g, st, x, 0))
    && st.Of(x).tri == TriEquation(g, st, x, user)
  }

  ghost predicate SolvesText(g: Graph, st: State, x: nat, user: Option<User>) {
    && LimitsValid(g, st, x)
    && (VisibleTri(g, st, x) == NO || user.None? ==> TextDefaultsValid(g, st, x, 0))
    && RangeValid(g, st, x, TextWanted(g, st, x, user))
    && st.Of(x).val == TextEquation(g, st, x, user) && st.Of(x).tri == NO
  }

  ghost predicate Solves(g: Graph, st: State, x: nat, user: Option<User>) {
    && (Truth(g.Of(x).typ) ==> SolvesTri(g, st, x, user))
    && (Textual(g.Of(x).typ) ==> SolvesText(g, st, x, user))
    && (!Truth(g.Of(x).typ) && !Textual(g.Of(x).typ) ==> st.Of(x).tri == NO)
  }

  /** Only a tristate symbol solves its equation with m. */
  lemma SolvedNotM(g: Graph, st: State, x: nat, user: Option<User>)
    requires Solves(g, st, x, user) && g.Of(x).typ != Tristate
    ensures st.Of(x).tri != MOD
  {}

  /** No symbol of d is m. */
  ghost predicate NoM(st: State, d: iset<nat>) {
    forall y: nat :: y in d && y !in st.stale ==> st.Of(y).tri != MOD
  }

  /** Valid symbols of d have kept their values, and so has MODULES, or there is no m in d to be read as n. */
  ghost predicate Kept(g: Graph, st: State, st': State, d: iset<nat>) {
    && st.need == {} == st'.need && g.modules !in st.stale && st'.stale <= st.stale && |st'.cells| == |st.cells|
    && (SameRead(st, st', g.modules) || NoM(st, d))
    && forall y: nat :: y in d && y !in st.stale ==> SameRead(st, st', y)
  }

  /** Time has passed, while MODULES was not calculated. */
  ghost predicate Later(g: Graph, st: State, st': State, d: iset<nat>) {
    Kept(g, st, st', d) && st'.modulesVal == st.modulesVal
  }

  lemma LaterTwice(g: Graph, st: State, st1: State, st2: State, d: iset<nat>)
    requires Later(g, st, st1, d) && Later(g, st1, st2, d)
    ensures Later(g, st, st2, d)
  {
    forall y: nat | y in d && y !in st.stale ensures SameRead(st, st2, y) {
      assert SameRead(st, st1, y) && SameRead(st1, st2, y);
    }
    if NoM(st1, d) {
      forall y: nat | y in d && y !in st.stale ensures st.Of(y).tri != MOD { assert SameRead(st, st1, y); }
    }
  }

  lemma StepLater(g: Graph, st: State, st': State, d: iset<nat>, d': iset<nat>)
    requires Step(g, st, st', d', NULL) && st.need == {} && g.modules !in st.stale
    ensures Later(g, st, st', d)
  {
    assert SameValue(st, st', g.modules);
    forall y: nat | y in d && y !in st.stale ensures SameRead(st, st', y) { assert SameValue(st, st', y); }
  }

  lemma LaterValid(g: Graph, st: State, st': State, d: iset<nat>, ns: set<nat>)
    requires Kept(g, st, st', d) && Inside(ns, d) && ValidIn(st, ns)
    ensures ValidIn(st', ns) && (forall y :: y in ns ==> SameRead(st, st', y)) && ModulesAgree(g, st, st', ns)
  {}

  lemma LaterOpt(g: Graph, st: State, st': State, d: iset<nat>, e: Option<Expr>)
    requires Kept(g, st, st', d) && Inside(OptNumbers(e), d) && ValidIn(st, OptNumbers(e))
    ensures ValidIn(st', OptNumbers(e)) && ValueOpt(e, EnvOf(g, st)) == ValueOpt(e, EnvOf(g, st'))
  {
    LaterValid(g, st, st', d, OptNumbers(e));
    hide Kept, Inside, ValidIn, EnvOf, ModulesAgree;
    OptAgrees(g, st, st', e);
  }

  /** MODULES makes no difference to whether x has an m. */
  predicate SameKind(g: Graph, st: State, st': State, x: nat) {
    st'.modulesVal == st.modulesVal || g.Of(x).typ != Tristate
  }

  lemma PromptsLater(g: Graph, st: State, st': State, d: iset<nat>, x: nat)
    requires Kept(g, st, st', d) && SameKind(g, st, st', x) && ClosedAt(g.Of(x), d)
    requires PromptsValid(g, st, x, 0) && g.Of(x).choice.None?
    ensures PromptsValid(g, st', x, 0) && VisibleTri(g, st', x) == VisibleTri(g, st, x)
  {
    forall p, y | p in g.Of(x).prompts && y in OptNumbers(p) ensures SameRead(st, st', y) {
      LaterValid(g, st, st', d, OptNumbers(p));
    }
    PromptsAgree(g, st, st', x, 0, NO);
  }

  lemma LimitsLater(g: Graph, st: State, st': State, d: iset<nat>, x: nat)
    requires Kept(g, st, st', d) && SameKind(g, st, st', x) && ClosedAt(g.Of(x), d)
    requires LimitsValid(g, st, x) && g.Of(x).choice.None?
    ensures LimitsValid(g, st', x) && VisibleTri(g, st', x) == VisibleTri(g, st, x)
    ensures DirTri(g, st', x) == DirTri(g, st, x) && RevTri(g, st', x) == RevTri(g, st, x)
    ensures ImpliedTri(g, st', x) == ImpliedTri(g, st, x)
  {
    var i := g.Of(x);
    PromptsLater(g, st, st', d, x);
    LaterOpt(g, st, st', d, i.dirDep);
    LaterOpt(g, st, st', d, i.revDep);
    if DirTri(g, st, x) != NO { LaterOpt(g, st, st', d, i.implied); }
  }

  lemma {:induction false} DefaultsLater(g: Graph, st: State, st': State, d: iset<nat>, x: nat, k: nat)
    requires Kept(g, st, st', d) && ClosedAt(g.Of(x), d) && DefaultsValid(g, st, x, k)
    ensures DefaultsValid(g, st', x, k) && FirstDefault(g, st', x, k) == FirstDefault(g, st, x, k)
    decreases |g.Of(x).defaults| - k
  {
    if k < |g.Of(x).defaults| {
      var f := g.Of(x).defaults[k];
      assert f in g.Of(x).defaults;
      LaterOpt(g, st, st', d, f.cond);
      if ValueOpt(f.cond, EnvOf(g, st)) != NO {
        LaterOpt(g, st, st', d, Some(f.value));
      } else {
        DefaultsLater(g, st, st', d, x, k + 1);
      }
    }
  }

  lemma {:induction false} TextDefaultsLater(g: Graph, st: State, st': State, d: iset<nat>, x: nat, k: nat)
    requires Kept(g, st, st', d) && ClosedAt(g.Of(x), d) && TextDefaultsValid(g, st, x, k)
    ensures TextDefaultsValid(g, st', x, k) && TextDefault(g, st', x, k) == TextDefault(g, st, x, k)
    decreases |g.Of(x).defaults| - k
  {
    if k < |g.Of(x).defaults| {
      var f := g.Of(x).defaults[k];
      assert f in g.Of(x).defaults;
      LaterOpt(g, st, st', d, f.cond);
      if ValueOpt(f.cond, EnvOf(g, st)) == NO {
        TextDefaultsLater(g, st, st', d, x, k + 1);
      } else if f.value.Sym? {
        ValLater(g, st, st', d, f.value.sym);
      }
    }
  }

  lemma ValLater(g: Graph, st: State, st': State, d: iset<nat>, s: Symbol)
    requires Kept(g, st, st', d) && Inside(SymNumbers(s), d) && ValidIn(st, SymNumbers(s))
    ensures ValidIn(st', SymNumbers(s)) && ValOf(g, st', s) == ValOf(g, st, s)
  {
    if s.Config? {
      assert s.id in SymNumbers(s);
      assert SameRead(st, st', s.id);
    }
  }

  lemma {:induction false} RangesLater(g: Graph, st: State, st': State, d: iset<nat>, x: nat, k: nat)
    requires Kept(g, st, st', d) && ClosedAt(g.Of(x), d) && RangesValid(g, st, x, k)
    requires g.Of(x).typ == IntType || g.Of(x).typ == HexType
    ensures RangesValid(g, st', x, k) && FirstRange(g, st', x, k) == FirstRange(g, st, x, k)
    decreases |g.Of(x).ranges| - k
  {
    if k < |g.Of(x).ranges| {
      var r := g.Of(x).ranges[k];
      assert r in g.Of(x).ranges;
      LaterOpt(g, st, st', d, r.cond);
      if ValueOpt(r.cond, EnvOf(g, st)) == NO { RangesLater(g, st, st', d, x, k + 1); }
    }
  }

  lemma RangeLater(g: Graph, st: State, st': State, d: iset<nat>, x: nat, v: string)
    requires Kept(g, st, st', d) && ClosedAt(g.Of(x), d) && RangeValid(g, st, x, v)
    ensures RangeValid(g, st', x, v) && Ranged(g, st', x) == Ranged(g, st, x)
    ensures Ranged(g, st, x) ==>
      var r, typ := FirstRange(g, st, x, 0).value, g.Of(x).typ;
      && FirstRange(g, st', x, 0).value == r && Bound(g, st', r.lo, typ) == Bound(g, st, r.lo, typ)
      && (g.number(v, typ) >= Bound(g, st, r.lo, typ) ==> Bound(g, st', r.hi, typ) == Bound(g, st, r.hi, typ))
  {
    var typ := g.Of(x).typ;
    if typ == IntType || typ == HexType {
      RangesLater(g, st, st', d, x, 0);
      if Ranged(g, st, x) {
        var r := FirstRange(g, st, x, 0).value;
        ValLater(g, st, st', d, r.lo);
        if g.number(v, typ) >= Bound(g, st, r.lo, typ) { ValLater(g, st, st', d, r.hi); }
      }
    }
  }

  lemma TriLater(g: Graph, st: State, st': State, d: iset<nat>, x: nat, user: Option<User>)
    requires Kept(g, st, st', d) && SameKind(g, st, st', x) && ClosedAt(g.Of(x), d)
    requires LimitsValid(g, st, x) && g.Of(x).choice.None?
    requires VisibleTri(g, st, x) == NO || user.None? ==> DefaultsValid(g, st, x, 0)
    ensures LimitsValid(g, st', x) && TriEquation(g, st', x, user) == TriEquation(g, st, x, user)
    ensures VisibleTri(g, st', x) == NO || user.None? ==> DefaultsValid(g, st', x, 0)
  {
    LimitsLater(g, st, st', d, x);
    if VisibleTri(g, st, x) == NO || user.None? { DefaultsLater(g, st, st', d, x, 0); }
  }

  lemma SolvesLater(g: Graph, st: State, st': State, d: iset<nat>, x: nat, user: Option<User>)
    requires Kept(g, st, st', d) && SameKind(g, st, st', x) && ClosedAt(g.Of(x), d)
    requires Solves(g, st, x, user) && g.Of(x).choice.None?
    requires SameRead(st, st', x)
    ensures Solves(g, st', x, user)
  {
    if Truth(g.Of(x).typ) {
      TriLater(g, st, st', d, x, user);
    } else if Textual(g.Of(x).typ) {
      TextLater(g, st, st', d, x, user);
    }
  }

  lemma TextLater(g: Graph, st: State, st': State, d: iset<nat>, x: nat, user: Option<User>)
    requires Kept(g, st, st', d) && SameKind(g, st, st', x) && ClosedAt(g.Of(x), d)
    requires SolvesText(g, st, x, user) && g.Of(x).choice.None?
    requires SameRead(st, st', x)
    ensures SolvesText(g, st', x, user)
  {
    hide Kept, ClosedAt, RangeValid, TextDefaultsValid, LimitsValid, VisibleTri, Ranged, Bound;
    LimitsLater(g, st, st', d, x);
    if VisibleTri(g, st, x) == NO || user.None? { TextDefaultsLater(g, st, st', d, x, 0); }
    RangeLater(g, st, st', d, x, TextWanted(g, st, x, user));
  }

  // ----- one symbol among others -----

  /** Symbol x, no choice and no choice value, depends on symbols of d only, and none of these on x. */
  ghost predicate Alone(g: Graph, d: iset<nat>, x: nat) {
    Closed(g, d) && x !in d && ClosedAt(g.Of(x), d) && !g.Of(x).isChoice && g.Of(x).choice.None?
  }

  function UserOf(c: Cell): Option<User> { if c.defUser then Some(User(c.userTri, c.userVal)) else None }

  /** Symbol x keeps the user's value, and solves its equation if it is valid. */
  ghost predicate GoodAt(g: Graph, st: State, x: nat, user: Option<User>) {
    x < |st.cells| && UserOf(st.Of(x)) == user && (x !in st.stale ==> Solves(g, st, x, user))
  }

  /** MODULES, if it is x, is bool, and depends on no tristate symbol. */
  ghost predicate PlainModules(g: Graph, d: iset<nat>, x: nat) {
    x == g.modules ==> g.Of(x).typ == Boolean && forall y :: y in d ==> g.Of(y).typ != Tristate
  }

  /** Then there is no m for it to be read with. */
  lemma PlainNoM(g: Graph, st: State, d: iset<nat>)
    requires OnlyTristateM(g, st) && forall y :: y in d ==> g.Of(y).typ != Tristate
    ensures NoM(st, d)
  {
    forall y: nat | y in d && y !in st.stale ensures st.Of(y).tri != MOD {
      if y < |st.cells| { assert MaybeM(g, st, y); }
    }
  }

  /** A symbol is as good as before if it and what it depends on are left alone. */
  lemma GoodOutside(g: Graph, d: iset<nat>, st: State, st': State, x: nat, user: Option<User>)
    requires Alone(g, d, x) && GoodAt(g, st, x, user) && st'.Of(x) == st.Of(x) && (x in st.stale ==> x in st'.stale)
    requires Kept(g, st, st', d) && SameKind(g, st, st', x)
    ensures GoodAt(g, st', x, user)
  {
    if x !in st.stale { SolvesLater(g, st, st', d, x, user); }
  }

  lemma PutLater(g: Graph, st: State, x: nat, c: Cell, d: iset<nat>)
    requires Steady(g, st) && x !in d && (x == g.modules ==> NoM(st, d))
    ensures Later(g, st, st.Put(x, c), d)
  {}

  /** Evaluating an expression makes its symbols valid, and its result is its value then. */
  lemma OptLater(g: Graph, d: iset<nat>, st: State, e: Option<Expr>)
    requires Closed(g, d) && Inside(OptNumbers(e), d) && Steady(g, st)
    ensures var (st', v) := OptTri(g, st, e);
      && Later(g, st, st', d) && Step(g, st, st', d, NULL) && ValidIn(st', OptNumbers(e))
      && v == ValueOpt(e, EnvOf(g, st'))
  {
    WithinSubset(st, OptNumbers(e), d);
    OptSteps(g, st, e, d);
    StepLater(g, st, OptTri(g, st, e).0, d, d);
    hide Step, Kept;
    if e.Some? { ExprValidates(g, st, e.value, d); }
  }

  // ----- one symbol -----

  /** Symbol x is being calculated. */
  ghost predicate Going(g: Graph, d: iset<nat>, st: State, x: nat, user: Option<User>) {
    && Alone(g, d, x) && PlainModules(g, d, x) && Steady(g, st)
    && x !in st.stale && x < |st.cells| && UserOf(st.Of(x)) == user
    && (x == g.modules ==> OnlyTristateM(g, st))
  }

  /** Writing the cell of x. */
  lemma GoingPut(g: Graph, d: iset<nat>, st: State, x: nat, c: Cell, user: Option<User>)
    requires Going(g, d, st, x, user) && UserOf(c) == user
    requires c.tri == st.Of(x).tri || (x == g.modules ==> c.tri != MOD)
    ensures Going(g, d, st.Put(x, c), x, user)
    ensures Later(g, st, st.Put(x, c), d) && st.Put(x, c).Of(x) == c
  {
    if x == g.modules {
      PlainNoM(g, st, d);
      forall y: nat | y < |st.cells| ensures MaybeM(g, st.Put(x, c), y) { assert MaybeM(g, st, y); }
    }
    PutLater(g, st, x, c, d);
  }

  /** Evaluating something that x depends on. */
  lemma GoingStep(g: Graph, d: iset<nat>, st: State, st': State, x: nat, user: Option<User>)
    requires Going(g, d, st, x, user) && Step(g, st, st', d, NULL)
    ensures Going(g, d, st', x, user) && Later(g, st, st', d) && st'.Of(x) == st.Of(x)
  {
    StepLater(g, st, st', d, d);
    assert Untouched(st, st', x);
  }

  lemma GoingOpt(g: Graph, d: iset<nat>, st: State, x: nat, e: Option<Expr>, user: Option<User>)
    requires Going(g, d, st, x, user) && Inside(OptNumbers(e), d)
    ensures var (st', v) := OptTri(g, st, e);
      && Going(g, d, st', x, user) && Later(g, st, st', d) && st'.Of(x) == st.Of(x)
      && ValidIn(st', OptNumbers(e)) && v == ValueOpt(e, EnvOf(g, st'))
  {
    OptLater(g, d, st, e);
    GoingStep(g, d, st, OptTri(g, st, e).0, x, user);
  }

  lemma ReadsBelow(g: Graph, d: iset<nat>, st: State, x: nat, user: Option<User>)
    requires Going(g, d, st, x, user)
    ensures ClosedAt(g.Of(x), d) && Closed(g, d)
    ensures g.Of(x).choice.None? && !g.Of(x).isChoice && st.need == {} && g.modules !in st.stale
  {}

  lemma PromptsSolved(g: Graph, d: iset<nat>, st: State, x: nat, user: Option<User>)
    requires Going(g, d, st, x, user)
    ensures var (st', v) := Prompts(g, st, x, 0, NO);
      && Going(g, d, st', x, user) && Later(g, st, st', d) && st'.Of(x) == st.Of(x)
      && PromptsValid(g, st', x, 0) && v == PromptsTri(g, st', x, 0, NO)
  {
    ReadsBelow(g, d, st, x, user);
    forall p | p in g.Of(x).prompts ensures Within(st, OptNumbers(p), d) { WithinSubset(st, OptNumbers(p), d); }
    hide Step, Kept;
    PromptsSteps(g, st, x, 0, NO, d);
    PromptsValidate(g, st, x, 0, NO, d);
    var st1 := Prompts(g, st, x, 0, NO).0;
    GoingStep(g, d, st, st1, x, user);
  }

  /** The stored visibility and dependencies are those of the values. */
  ghost predicate LimitsStored(g: Graph, st: State, x: nat) {
    var c := st.Of(x);
    && LimitsValid(g, st, x) && c.visible == VisibleTri(g, st, x) && c.dirDep == DirTri(g, st, x)
    && c.revDep == RevTri(g, st, x) && c.implied == ImpliedTri(g, st, x)
  }

  lemma PromotedBinary(g: Graph, st: State, x: nat, t: Tri)
    requires g.Of(x).choice.None?
    ensures Promoted(g, st, x, t) == AsBinary(g, st, x, t)
  {}

  /** One dependency is evaluated, and its value stored in the cell c. */
  lemma GoingStore(g: Graph, d: iset<nat>, st: State, st1: State, x: nat, c: Cell, user: Option<User>)
    requires Going(g, d, st1, x, user) && Later(g, st, st1, d)
    requires UserOf(c) == UserOf(st1.Of(x)) && (c.tri == st1.Of(x).tri || (x == g.modules ==> c.tri != MOD))
    ensures Going(g, d, st1.Put(x, c), x, user) && st1.Put(x, c).Of(x) == c
    ensures Later(g, st, st1.Put(x, c), d)
    ensures Later(g, st1, st1.Put(x, c), d)
  {
    GoingPut(g, d, st1, x, c, user);
    LaterTwice(g, st, st1, st1.Put(x, c), d);
  }

  lemma LaterSelf(g: Graph, st: State, d: iset<nat>)
    requires st.need == {} && g.modules !in st.stale
    ensures Later(g, st, st, d)
  {}

  /** `depends on`. */
  lemma DirSolved(g: Graph, d: iset<nat>, st: State, x: nat, user: Option<User>)
    requires Going(g, d, st, x, user)
    ensures var (st3, v) := OptTri(g, st, g.Of(x).dirDep);
      var c := st3.Of(x).(dirDep := Promoted(g, st3, x, v));
      var st' := st3.Put(x, c);
      && Going(g, d, st', x, user) && Later(g, st, st', d) && st'.Of(x) == c
      && st3.Of(x) == st.Of(x) && ValidIn(st', OptNumbers(g.Of(x).dirDep)) && c.dirDep == DirTri(g, st', x)
  {
    var e := g.Of(x).dirDep;
    ReadsBelow(g, d, st, x, user);
    hide Going, Step, EnvOf, ClosedAt, Closed, Value;
    assert Inside(OptNumbers(e), d) by { InsideDir(g.Of(x), d); }
    GoingOpt(g, d, st, x, e, user);
    var (st3, v) := OptTri(g, st, e);
    var c := st3.Of(x).(dirDep := Promoted(g, st3, x, v));
    PromotedBinary(g, st3, x, v);
    GoingStore(g, d, st, st3, x, c, user);
    LaterOpt(g, st3, st3.Put(x, c), d, e);
  }

  lemma InsideDir(i: Info, d: iset<nat>)
    requires ClosedAt(i, d) && i.choice.None?
    ensures Inside(OptNumbers(i.dirDep), d) && Inside(OptNumbers(i.revDep), d) && Inside(OptNumbers(i.implied), d)
  {}

  /** `select` and `imply`, which are only evaluated if there is something to evaluate. */
  lemma OtherSolved(g: Graph, d: iset<nat>, st: State, x: nat, e: Option<Expr>, on: bool, user: Option<User>)
    requires Going(g, d, st, x, user) && Inside(OptNumbers(e), d)
    ensures var (st', v) := if e.Some? && on then ExprTri(g, st, e.value) else (st, NO);
      && Going(g, d, st', x, user) && Later(g, st, st', d) && st'.Of(x) == st.Of(x)
      && (on ==> ValidIn(st', OptNumbers(e))) && v == (if e.None? || !on then NO else Value(e.value, EnvOf(g, st')))
  {
    ReadsBelow(g, d, st, x, user);
    LaterSelf(g, st, d);
    if e.Some? && on { GoingOpt(g, d, st, x, e, user); }
  }

  lemma RevSolved(g: Graph, d: iset<nat>, st: State, x: nat, user: Option<User>)
    requires Going(g, d, st, x, user)
    ensures var e := g.Of(x).revDep;
      var (st5, v) := if e.Some? then ExprTri(g, st, e.value) else (st, NO);
      var c := st5.Of(x).(revDep := Promoted(g, st5, x, v));
      var st' := st5.Put(x, c);
      && Going(g, d, st', x, user) && Later(g, st, st', d) && st'.Of(x) == c
      && st5.Of(x) == st.Of(x) && ValidIn(st', OptNumbers(e)) && c.revDep == RevTri(g, st', x)
  {
    var e := g.Of(x).revDep;
    ReadsBelow(g, d, st, x, user);
    InsideDir(g.Of(x), d);
    hide Going, EnvOf, ClosedAt, Closed, Value, Inside;
    OtherSolved(g, d, st, x, e, true, user);
    var (st5, v) := if e.Some? then ExprTri(g, st, e.value) else (st, NO);
    var c := st5.Of(x).(revDep := Promoted(g, st5, x, v));
    PromotedBinary(g, st5, x, v);
    GoingStore(g, d, st, st5, x, c, user);
    LaterOpt(g, st5, st5.Put(x, c), d, e);
  }

  lemma ImpliedSolved(g: Graph, d: iset<nat>, st: State, x: nat, user: Option<User>)
    requires Going(g, d, st, x, user)
    requires ValidIn(st, OptNumbers(g.Of(x).dirDep)) && st.Of(x).dirDep == DirTri(g, st, x)
    ensures var e := g.Of(x).implied;
      var (st7, v) := if e.Some? && st.Of(x).dirDep != NO then ExprTri(g, st, e.value) else (st, NO);
      var c := st7.Of(x).(implied := Promoted(g, st7, x, v));
      var st' := st7.Put(x, c);
      && Going(g, d, st', x, user) && Later(g, st, st', d) && st'.Of(x) == c
      && st7.Of(x) == st.Of(x) && ValidIn(st', OptNumbers(g.Of(x).dirDep)) && c.dirDep == DirTri(g, st', x)
      && (c.dirDep != NO ==> ValidIn(st', OptNumbers(e))) && c.implied == ImpliedTri(g, st', x)
  {
    var e, on := g.Of(x).implied, st.Of(x).dirDep != NO;
    ReadsBelow(g, d, st, x, user);
    InsideDir(g.Of(x), d);
    hide Going, EnvOf, ClosedAt, Closed, Value, Inside;
    OtherSolved(g, d, st, x, e, on, user);
    var (st7, v) := if e.Some? && on then ExprTri(g, st, e.value) else (st, NO);
    var c := st7.Of(x).(implied := Promoted(g, st7, x, v));
    PromotedBinary(g, st7, x, v);
    GoingStore(g, d, st, st7, x, c, user);
    LaterOpt(g, st, st7.Put(x, c), d, g.Of(x).dirDep);
    if on { LaterOpt(g, st7, st7.Put(x, c), d, e); }
  }

  lemma DependenciesSolved(g: Graph, d: iset<nat>, st: State, x: nat, user: Option<User>)
    requires Going(g, d, st, x, user)
    requires PromptsValid(g, st, x, 0) && st.Of(x).visible == VisibleTri(g, st, x)
    ensures var st' := Dependencies(g, st, x);
      && Going(g, d, st', x, user) && Later(g, st, st', d) && LimitsStored(g, st', x)
  {
    var i := g.Of(x);
    ReadsBelow(g, d, st, x, user);
    InsideDir(i, d);
    hide Going, Later, EnvOf, Value, Closed, ClosedAt, Inside, PromptsValid, Promoted;
    hide OptTri, ExprTri, ValidIn, DirTri, RevTri, ImpliedTri, VisibleTri;
    DirSolved(g, d, st, x, user);
    var (st3, v) := OptTri(g, st, i.dirDep);
    var st4 := st3.Put(x, st3.Of(x).(dirDep := Promoted(g, st3, x, v)));
    RevSolved(g, d, st4, x, user);
    var (st5, r) := if i.revDep.Some? then ExprTri(g, st4, i.revDep.value) else (st4, NO);
    var st6 := st5.Put(x, st5.Of(x).(revDep := Promoted(g, st5, x, r)));
    DirStays(g, st4, st6, d, x);
    ImpliedSolved(g, d, st6, x, user);
    var st8 := Dependencies(g, st, x);
    LaterTwice(g, st, st4, st6, d);
    LaterTwice(g, st, st6, st8, d);
    RevStays(g, st6, st8, d, x);
    PromptsStay(g, st, st8, d, x);
  }

  lemma DirStays(g: Graph, st: State, st': State, d: iset<nat>, x: nat)
    requires Later(g, st, st', d) && ClosedAt(g.Of(x), d) && g.Of(x).choice.None?
    requires ValidIn(st, OptNumbers(g.Of(x).dirDep))
    ensures ValidIn(st', OptNumbers(g.Of(x).dirDep)) && DirTri(g, st', x) == DirTri(g, st, x)
  {
    LaterOpt(g, st, st', d, g.Of(x).dirDep);
  }

  lemma RevStays(g: Graph, st: State, st': State, d: iset<nat>, x: nat)
    requires Later(g, st, st', d) && ClosedAt(g.Of(x), d) && g.Of(x).choice.None?
    requires ValidIn(st, OptNumbers(g.Of(x).revDep))
    ensures ValidIn(st', OptNumbers(g.Of(x).revDep)) && RevTri(g, st', x) == RevTri(g, st, x)
  {
    LaterOpt(g, st, st', d, g.Of(x).revDep);
  }

  lemma PromptsStay(g: Graph, st: State, st': State, d: iset<nat>, x: nat)
    requires Later(g, st, st', d) && ClosedAt(g.Of(x), d) && g.Of(x).choice.None? && PromptsValid(g, st, x, 0)
    ensures PromptsValid(g, st', x, 0) && VisibleTri(g, st', x) == VisibleTri(g, st, x)
  {
    PromptsLater(g, st, st', d, x);
  }

  lemma VisibilitySolved(g: Graph, d: iset<nat>, st: State, x: nat, user: Option<User>)
    requires Going(g, d, st, x, user)
    ensures var st' := Visibility(g, st, x);
      Going(g, d, st', x, user) && Later(g, st, st', d) && LimitsStored(g, st', x)
  {
    var i := g.Of(x);
    ReadsBelow(g, d, st, x, user);
    hide Going, Kept, EnvOf, PromptsValid, LimitsStored, PromptsTri;
    PromptsSolved(g, d, st, x, user);
    var (st1, t) := Prompts(g, st, x, 0, NO);
    var c2 := st1.Of(x).(visible := if t == MOD && (i.typ != Tristate || st1.modulesVal == NO) then YES else t);
    GoingStore(g, d, st, st1, x, c2, user);
    var st2 := st1.Put(x, c2);
    PromptsLater(g, st1, st2, d, x);
    DependenciesSolved(g, d, st2, x, user);
    LaterTwice(g, st, st2, Dependencies(g, st2, x), d);
  }

  // ----- defaults -----

  lemma InsideDefault(i: Info, d: iset<nat>, f: Default)
    requires ClosedAt(i, d) && f in i.defaults
    ensures Inside(OptNumbers(f.cond), d) && Inside(Numbers(f.value), d)
  {}

  /** The defaults from number k on, and then the value of the one that counts. */
  lemma {:induction false} DefaultSolved(g: Graph, d: iset<nat>, st: State, x: nat, k: nat, user: Option<User>)
    requires Going(g, d, st, x, user) && k <= |g.Of(x).defaults|
    ensures var (st1, prop, cond) := DefaultProp(g, st, x, k);
      var (st2, v) := if prop.None? then (st1, NO) else ExprTri(g, st1, prop.value.value);
      && Going(g, d, st2, x, user) && Later(g, st, st2, d) && st2.Of(x) == st.Of(x)
      && DefaultsValid(g, st2, x, k) && FirstDefault(g, st2, x, k) == (if prop.None? then NO else Min(v, cond))
    decreases |g.Of(x).defaults| - k
  {
    var i := g.Of(x);
    ReadsBelow(g, d, st, x, user);
    LaterSelf(g, st, d);
    if k < |i.defaults| {
      var f := i.defaults[k];
      InsideDefault(i, d, f);
      hide Going, Kept, EnvOf, Value, ClosedAt, Closed, Inside;
      GoingOpt(g, d, st, x, f.cond, user);
      var (st1, v) := OptTri(g, st, f.cond);
      if v != NO {
        GoingOpt(g, d, st1, x, Some(f.value), user);
        var (st2, w) := ExprTri(g, st1, f.value);
        LaterTwice(g, st, st1, st2, d);
        LaterOpt(g, st1, st2, d, f.cond);
      } else {
        DefaultSolved(g, d, st1, x, k + 1, user);
        var (st2, prop, cond) := DefaultProp(g, st1, x, k + 1);
        var (st3, w) := if prop.None? then (st2, NO) else ExprTri(g, st2, prop.value.value);
        LaterTwice(g, st, st1, st3, d);
        LaterOpt(g, st1, st3, d, f.cond);
      }
    }
  }

  /** Nothing has changed but flags of the cell of x, and symbols below x that have become valid. */
  ghost predicate Onward(g: Graph, d: iset<nat>, st: State, st': State, x: nat,
                         user: Option<User>) {
    && Going(g, d, st', x, user) && Later(g, st, st', d)
    && st'.Of(x) == st.Of(x).(write := st'.Of(x).write)
  }

  lemma OnwardWrite(g: Graph, d: iset<nat>, st: State, st1: State, x: nat, on: bool, user: Option<User>)
    requires Onward(g, d, st, st1, x, user)
    ensures var st2 := if on then st1.Put(x, st1.Of(x).(write := true)) else st1;
      Onward(g, d, st, st2, x, user) && Later(g, st1, st2, d)
  {
    LaterSelf(g, st1, d);
    if on { GoingStore(g, d, st, st1, x, st1.Of(x).(write := true), user); }
  }

  lemma OnwardTwice(g: Graph, d: iset<nat>, st: State, st1: State, st2: State, x: nat, user: Option<User>)
    requires Onward(g, d, st, st1, x, user) && Onward(g, d, st1, st2, x, user)
    ensures Onward(g, d, st, st2, x, user)
  {
    LaterTwice(g, st, st1, st2, d);
  }

  /** The limits hold on. */
  lemma OnwardLimits(g: Graph, d: iset<nat>, st: State, st': State, x: nat, user: Option<User>)
    requires Onward(g, d, st, st', x, user) && LimitsStored(g, st, x)
    ensures LimitsStored(g, st', x) && st'.modulesVal == st.modulesVal
  {
    ReadsBelow(g, d, st', x, user);
    LimitsLater(g, st, st', d, x);
  }

  /** The default of a bool or tristate symbol. */
  lemma DefaultTriSolved(g: Graph, d: iset<nat>, st: State, x: nat, user: Option<User>)
    requires Going(g, d, st, x, user)
    ensures var (st', t) := DefaultTri(g, st, x);
      && Onward(g, d, st, st', x, user)
      && DefaultsValid(g, st', x, 0) && t == FirstDefault(g, st', x, 0)
  {
    ReadsBelow(g, d, st, x, user);
    hide Going, Kept, EnvOf, Value, ClosedAt, Closed, DefaultsValid, FirstDefault;
    DefaultSolved(g, d, st, x, 0, user);
    var (st1, prop, cond) := DefaultProp(g, st, x, 0);
    var (st2, v) := if prop.None? then (st1, NO) else ExprTri(g, st1, prop.value.value);
    var on := prop.Some? && Min(v, cond) != NO;
    OnwardWrite(g, d, st, st2, x, on, user);
    DefaultsLater(g, st2, if on then st2.Put(x, st2.Of(x).(write := true)) else st2, d, x, 0);
  }

  lemma SettleBinary(g: Graph, st: State, x: nat, t: Tri)
    requires g.Of(x).choice.None?
    ensures Settle(g, st, x, t).1 == if t == MOD && (Binary(g, st, x) || st.Of(x).implied == YES) then YES else t
  {}

  /** The default v has been found in st2; `imply` and `select` are joined to it. */
  lemma UnsetSettles(g: Graph, d: iset<nat>, st: State, st2: State, x: nat, v: Tri, user: Option<User>)
    requires Going(g, d, st, x, user) && LimitsStored(g, st, x)
    requires st.Of(x).visible == NO || !st.Of(x).defUser
    requires Onward(g, d, st, st2, x, user) && DefaultsValid(g, st2, x, 0) && v == FirstDefault(g, st2, x, 0)
    ensures var implied := st2.Of(x).implied;
            var st3 := if implied != NO then st2.Put(x, st2.Of(x).(write := true)) else st2;
      && Onward(g, d, st, st3, x, user) && LimitsStored(g, st3, x) && DefaultsValid(g, st3, x, 0)
      && Settle(g, st3, x, Max(Max(v, implied), st3.Of(x).revDep)).1 == TriEquation(g, st3, x, user)
  {
    ReadsBelow(g, d, st, x, user);
    assert UserOf(st.Of(x)) == user;
    hide Going, Kept, LimitsStored, DefaultsValid, FirstDefault, VisibleTri, DirTri, RevTri, ImpliedTri;
    hide EnvOf, Value, Settle, Binary, ClosedAt, Closed;
    var implied := st2.Of(x).implied;
    OnwardWrite(g, d, st, st2, x, implied != NO, user);
    var st3 := if implied != NO then st2.Put(x, st2.Of(x).(write := true)) else st2;
    OnwardLimits(g, d, st, st3, x, user);
    DefaultsLater(g, st2, st3, d, x, 0);
    Stored(g, st3, x);
    SettleBinary(g, st3, x, Max(Max(v, implied), st3.Of(x).revDep));
  }

  /** Without a value of the user's. */
  lemma UnsetSolved(g: Graph, d: iset<nat>, st: State, x: nat, user: Option<User>)
    requires Going(g, d, st, x, user) && LimitsStored(g, st, x) && Truth(g.Of(x).typ)
    requires st.Of(x).visible == NO || !st.Of(x).defUser
    ensures var (st', t) := TruthValue(g, st, x);
      && Onward(g, d, st, st', x, user) && LimitsStored(g, st', x)
      && DefaultsValid(g, st', x, 0) && t == TriEquation(g, st', x, user)
  {
    var i, c := g.Of(x), st.Of(x);
    ReadsBelow(g, d, st, x, user);
    LaterSelf(g, st, d);
    hide Going, Kept, LimitsStored, DefaultsValid, FirstDefault, Settle, DefaultTri, ClosedAt, Closed;
    hide TriEquation, EnvOf;
    OnwardWrite(g, d, st, st, x, c.revDep != NO, user);
    var st1 := if c.revDep != NO then st.Put(x, c.(write := true)) else st;
    GoingOnward(g, d, st, st1, x, user);
    DefaultTriSolved(g, d, st1, x, user);
    var (st2, v) := DefaultTri(g, st1, x);
    OnwardTwice(g, d, st, st1, st2, x, user);
    UnsetSettles(g, d, st, st2, x, v, user);
  }

  /** The value that a bool or tristate symbol gets. */
  lemma TruthSolved(g: Graph, d: iset<nat>, st: State, x: nat, user: Option<User>)
    requires Going(g, d, st, x, user) && LimitsStored(g, st, x) && Truth(g.Of(x).typ)
    ensures var (st', t) := TruthValue(g, st, x);
      && Onward(g, d, st, st', x, user) && LimitsStored(g, st', x)
      && (VisibleTri(g, st', x) == NO || user.None? ==> DefaultsValid(g, st', x, 0))
      && t == TriEquation(g, st', x, user)
  {
    var i, c := g.Of(x), st.Of(x);
    ReadsBelow(g, d, st, x, user);
    LaterSelf(g, st, d);
    assert UserOf(c) == user;
    if c.visible == NO || !c.defUser { UnsetSolved(g, d, st, x, user); }
  }

  lemma GoingOnward(g: Graph, d: iset<nat>, st: State, st': State, x: nat, user: Option<User>)
    requires Onward(g, d, st, st', x, user)
    ensures Going(g, d, st', x, user)
  {}

  lemma Stored(g: Graph, st: State, x: nat)
    requires LimitsStored(g, st, x)
    ensures var c := st.Of(x);
      c.visible == VisibleTri(g, st, x) && c.revDep == RevTri(g, st, x) && c.implied == ImpliedTri(g, st, x)
  {}

  // ----- text -----

  /** `prop` is the first default from number k on that is on, and what says so is valid. */
  ghost predicate Found(g: Graph, st: State, x: nat, k: nat, prop: Option<Default>)
    decreases |g.Of(x).defaults| - k
  {
    if k >= |g.Of(x).defaults| then prop.None?
    else
      var f := g.Of(x).defaults[k];
      && ValidIn(st, OptNumbers(f.cond))
      && if ValueOpt(f.cond, EnvOf(g, st)) == NO then Found(g, st, x, k + 1, prop) else prop == Some(f)
  }

  lemma {:induction false} FoundLater(g: Graph, st: State, st': State, d: iset<nat>, x: nat, k: nat,
                                      prop: Option<Default>)
    requires Kept(g, st, st', d) && ClosedAt(g.Of(x), d) && Found(g, st, x, k, prop)
    ensures Found(g, st', x, k, prop)
    decreases |g.Of(x).defaults| - k
  {
    if k < |g.Of(x).defaults| {
      var f := g.Of(x).defaults[k];
      assert f in g.Of(x).defaults;
      LaterOpt(g, st, st', d, f.cond);
      if ValueOpt(f.cond, EnvOf(g, st)) == NO { FoundLater(g, st, st', d, x, k + 1, prop); }
    }
  }

  lemma {:induction false} FoundText(g: Graph, st: State, x: nat, k: nat, prop: Option<Default>)
    requires Found(g, st, x, k, prop)
    requires prop.Some? && prop.value.value.Sym? ==> ValidIn(st, SymNumbers(prop.value.value.sym))
    ensures TextDefaultsValid(g, st, x, k)
    ensures TextDefault(g, st, x, k) ==
      if prop.Some? && prop.value.value.Sym? then ValOf(g, st, prop.value.value.sym) else ""
    decreases |g.Of(x).defaults| - k
  {
    if k < |g.Of(x).defaults| && ValueOpt(g.Of(x).defaults[k].cond, EnvOf(g, st)) == NO {
      FoundText(g, st, x, k + 1, prop);
    }
  }

  lemma {:induction false} DefaultFound(g: Graph, d: iset<nat>, st: State, x: nat, k: nat, user: Option<User>)
    requires Going(g, d, st, x, user) && k <= |g.Of(x).defaults|
    ensures var (st1, prop, cond) := DefaultProp(g, st, x, k);
      && Onward(g, d, st, st1, x, user) && Found(g, st1, x, k, prop)
      && (prop.Some? ==> prop.value in g.Of(x).defaults)
    decreases |g.Of(x).defaults| - k
  {
    var i := g.Of(x);
    ReadsBelow(g, d, st, x, user);
    LaterSelf(g, st, d);
    if k < |i.defaults| {
      var f := i.defaults[k];
      InsideDefault(i, d, f);
      hide Going, Kept, EnvOf, Value, ClosedAt, Closed, Inside;
      GoingOpt(g, d, st, x, f.cond, user);
      var (st1, v) := OptTri(g, st, f.cond);
      if v == NO {
        DefaultFound(g, d, st1, x, k + 1, user);
        var (st2, prop, cond) := DefaultProp(g, st1, x, k + 1);
        OnwardTwice(g, d, st, st1, st2, x, user);
        GoingOnward(g, d, st1, st2, x, user);
        LaterOnward(g, d, st1, st2, x, user);
        LaterOpt(g, st1, st2, d, f.cond);
      }
    }
  }

  lemma LaterOnward(g: Graph, d: iset<nat>, st: State, st': State, x: nat, user: Option<User>)
    requires Onward(g, d, st, st', x, user)
    ensures Later(g, st, st', d)
  {}

  /** Calculating a symbol that x depends on. */
  lemma GoingSym(g: Graph, d: iset<nat>, st: State, x: nat, s: Symbol, user: Option<User>)
    requires Going(g, d, st, x, user) && Inside(SymNumbers(s), d)
    ensures var st' := CalcSym(g, st, s);
      Onward(g, d, st, st', x, user) && ValidIn(st', SymNumbers(s))
  {
    GoingOpt(g, d, st, x, Some(Sym(s)), user);
    assert ExprTri(g, st, Sym(s)).0 == CalcSym(g, st, s) && Numbers(Sym(s)) == SymNumbers(s);
  }

  /** The value that an int, hex or string symbol gets before it is put into its range. */
  lemma TextSolved(g: Graph, d: iset<nat>, st: State, x: nat, user: Option<User>)
    requires Going(g, d, st, x, user) && LimitsStored(g, st, x)
    ensures var (st', v) := TextValue(g, st, x);
      && Onward(g, d, st, st', x, user) && LimitsStored(g, st', x)
      && (VisibleTri(g, st', x) == NO || user.None? ==> TextDefaultsValid(g, st', x, 0))
      && v == TextWanted(g, st', x, user)
  {
    var c := st.Of(x);
    ReadsBelow(g, d, st, x, user);
    LaterSelf(g, st, d);
    assert UserOf(c) == user;
    if c.visible == NO || !c.defUser {
      hide Going, Kept, LimitsStored, Found, TextDefaultsValid, TextDefault, VisibleTri;
      DefaultFound(g, d, st, x, 0, user);
      var (st1, prop, cond) := DefaultProp(g, st, x, 0);
      var st3 := TextValue(g, st, x).0;
      if prop.Some? && prop.value.value.Sym? {
        var s := prop.value.value.sym;
        InsideDefault(g.Of(x), d, prop.value);
        OnwardWrite(g, d, st, st1, x, true, user);
        var st2 := st1.Put(x, st1.Of(x).(write := true));
        GoingOnward(g, d, st, st2, x, user);
        GoingSym(g, d, st2, x, s, user);
        OnwardTwice(g, d, st, st2, st3, x, user);
        LaterOnward(g, d, st2, st3, x, user);
        LaterTwice(g, st1, st2, st3, d);
        FoundLater(g, st1, st3, d, x, 0, prop);
      }
      FoundText(g, st3, x, 0, prop);
      OnwardLimits(g, d, st, st3, x, user);
      Stored(g, st3, x);
    }
  }

  lemma InsideRange(i: Info, d: iset<nat>, r: Range)
    requires ClosedAt(i, d) && r in i.ranges && (i.typ == IntType || i.typ == HexType)
    ensures Inside(OptNumbers(r.cond), d) && Inside(SymNumbers(r.lo), d) && Inside(SymNumbers(r.hi), d)
  {}

  lemma {:induction false} RangeFound(g: Graph, d: iset<nat>, st: State, x: nat, k: nat, user: Option<User>)
    requires Going(g, d, st, x, user) && k <= |g.Of(x).ranges|
    requires g.Of(x).typ == IntType || g.Of(x).typ == HexType
    ensures var (st1, prop) := RangeProp(g, st, x, k);
      && Onward(g, d, st, st1, x, user) && RangesValid(g, st1, x, k) && prop == FirstRange(g, st1, x, k)
    decreases |g.Of(x).ranges| - k
  {
    var i := g.Of(x);
    ReadsBelow(g, d, st, x, user);
    LaterSelf(g, st, d);
    if k < |i.ranges| {
      var r := i.ranges[k];
      InsideRange(i, d, r);
      hide Going, Kept, EnvOf, Value, ClosedAt, Closed, Inside;
      GoingOpt(g, d, st, x, r.cond, user);
      var (st1, v) := OptTri(g, st, r.cond);
      if v == NO {
        RangeFound(g, d, st1, x, k + 1, user);
        var (st2, prop) := RangeProp(g, st1, x, k + 1);
        OnwardTwice(g, d, st, st1, st2, x, user);
        LaterOnward(g, d, st1, st2, x, user);
        LaterOpt(g, st1, st2, d, r.cond);
      }
    }
  }

  lemma BoundSolved(g: Graph, d: iset<nat>, st: State, x: nat, s: Symbol, user: Option<User>)
    requires Going(g, d, st, x, user) && Inside(SymNumbers(s), d)
    ensures var (st', v) := RangeVal(g, st, s, g.Of(x).typ);
      && Onward(g, d, st, st', x, user) && ValidIn(st', SymNumbers(s)) && v == Bound(g, st', s, g.Of(x).typ)
  {
    GoingSym(g, d, st, x, s, user);
  }

  /** The upper end, for a value v that is not below the lower one. */
  lemma UpperSolved(g: Graph, d: iset<nat>, st: State, st2: State, x: nat, r: Range, user: Option<User>)
    requires Onward(g, d, st, st2, x, user) && (g.Of(x).typ == IntType || g.Of(x).typ == HexType)
    requires RangesValid(g, st2, x, 0) && FirstRange(g, st2, x, 0) == Some(r) && ValidIn(st2, SymNumbers(r.lo))
    requires g.number(st.Of(x).val, g.Of(x).typ) >= Bound(g, st2, r.lo, g.Of(x).typ)
    ensures var typ, v := g.Of(x).typ, st.Of(x).val;
            var (st3, hi) := RangeVal(g, st2, r.hi, typ);
            var st' := if g.number(v, typ) <= hi then st3 else st3.Put(x, st3.Of(x).(val := g.format(hi, typ)));
      && Going(g, d, st', x, user) && Later(g, st, st', d) && RangeValid(g, st', x, v)
      && st'.Of(x) == st.Of(x).(write := st'.Of(x).write, val := Clamp(g, st', x, v))
  {
    var i, v := g.Of(x), st.Of(x).val;
    ReadsBelow(g, d, st2, x, user);
    InsideRange(i, d, r);
    hide RangesValid, FirstRange, Bound, Going, Kept, ClosedAt, Closed;
    GoingOnward(g, d, st, st2, x, user);
    BoundSolved(g, d, st2, x, r.hi, user);
    var (st3, hi) := RangeVal(g, st2, r.hi, i.typ);
    OnwardTwice(g, d, st, st2, st3, x, user);
    RangesLater(g, st2, st3, d, x, 0);
    ValLater(g, st2, st3, d, r.lo);
    BoundLater(g, st2, st3, r.lo, i.typ);
    if g.number(v, i.typ) > hi { ClampPut(g, d, st, st3, x, g.format(hi, i.typ), v, user); }
  }

  /** sym_validate_range puts the value into the range. */
  lemma ClampSolved(g: Graph, d: iset<nat>, st: State, x: nat, user: Option<User>)
    requires Going(g, d, st, x, user)
    ensures var st', v := ValidateRange(g, st, x), st.Of(x).val;
      && Going(g, d, st', x, user) && Later(g, st, st', d) && RangeValid(g, st', x, v)
      && st'.Of(x) == st.Of(x).(write := st'.Of(x).write, val := Clamp(g, st', x, v))
  {
    var i, v := g.Of(x), st.Of(x).val;
    ReadsBelow(g, d, st, x, user);
    LaterSelf(g, st, d);
    if i.typ == IntType || i.typ == HexType {
      RangeFound(g, d, st, x, 0, user);
      var (st1, prop) := RangeProp(g, st, x, 0);
      if prop.Some? {
        InsideRange(i, d, prop.value);
        hide RangesValid, FirstRange, Bound, Kept;
        BoundSolved(g, d, st1, x, prop.value.lo, user);
        var (st2, lo) := RangeVal(g, st1, prop.value.lo, i.typ);
        OnwardTwice(g, d, st, st1, st2, x, user);
        RangesLater(g, st1, st2, d, x, 0);
        if g.number(v, i.typ) < lo {
          ClampPut(g, d, st, st2, x, g.format(lo, i.typ), v, user);
        } else {
          UpperSolved(g, d, st, st2, x, prop.value, user);
        }
      }
    }
  }

  lemma BoundLater(g: Graph, st: State, st': State, s: Symbol, typ: SymType)
    requires ValOf(g, st', s) == ValOf(g, st, s)
    ensures Bound(g, st', s, typ) == Bound(g, st, s, typ)
  {}

  /** The value is replaced. */
  lemma ClampPut(g: Graph, d: iset<nat>, st: State, st1: State, x: nat, w: string, v: string, user: Option<User>)
    requires Onward(g, d, st, st1, x, user) && Ranged(g, st1, x) && RangeValid(g, st1, x, v)
    requires Clamp(g, st1, x, v) == w
    ensures var st' := st1.Put(x, st1.Of(x).(val := w));
      && Going(g, d, st', x, user) && Later(g, st, st', d) && RangeValid(g, st', x, v)
      && st'.Of(x) == st.Of(x).(write := st'.Of(x).write, val := w) && Clamp(g, st', x, v) == w
  {
    ReadsBelow(g, d, st1, x, user);
    GoingStore(g, d, st, st1, x, st1.Of(x).(val := w), user);
    RangeLater(g, st1, st1.Put(x, st1.Of(x).(val := w)), d, x, v);
  }

  // ----- sym_calc_value -----

  /** The value before it is put into a range. */
  ghost predicate HalfSolved(g: Graph, st: State, x: nat, user: Option<User>) {
    && LimitsValid(g, st, x)
    && (Truth(g.Of(x).typ) ==> SolvesTri(g, st, x, user))
    && (Textual(g.Of(x).typ) ==>
      && (VisibleTri(g, st, x) == NO || user.None? ==> TextDefaultsValid(g, st, x, 0))
      && st.Of(x).val == TextWanted(g, st, x, user) && st.Of(x).tri == NO)
  }

  lemma PlainTri(g: Graph, d: iset<nat>, st: State, x: nat, user: Option<User>)
    requires Going(g, d, st, x, user) && x == g.modules
    ensures TriEquation(g, st, x, user) != MOD
  {
    hide Wanted, ImpliedTri, Alone, OnlyTristateM;
  }

  lemma NewTruthSolved(g: Graph, d: iset<nat>, st: State, x: nat, user: Option<User>)
    requires Going(g, d, st, x, user) && LimitsStored(g, st, x) && Truth(g.Of(x).typ)
    ensures var (st1, t) := TruthValue(g, st, x);
      var st' := st1.Put(x, st1.Of(x).(tri := t, val := Empty(g.Of(x).typ), chosen := NULL));
      Going(g, d, st', x, user) && HalfSolved(g, st', x, user)
  {
    hide EnvOf, Value, TruthValue, ClosedAt, Closed, LimitsStored;
    TruthSolved(g, d, st, x, user);
    var (st1, t) := TruthValue(g, st, x);
    TriStored(g, d, st, st1, x, t, user);
  }

  /** The value found is stored. */
  lemma TriStored(g: Graph, d: iset<nat>, st: State, st1: State, x: nat, t: Tri, user: Option<User>)
    requires Onward(g, d, st, st1, x, user) && LimitsStored(g, st1, x) && Truth(g.Of(x).typ)
    requires VisibleTri(g, st1, x) == NO || user.None? ==> DefaultsValid(g, st1, x, 0)
    requires t == TriEquation(g, st1, x, user)
    ensures var st' := st1.Put(x, st1.Of(x).(tri := t, val := Empty(g.Of(x).typ), chosen := NULL));
      Going(g, d, st', x, user) && HalfSolved(g, st', x, user)
  {
    ReadsBelow(g, d, st1, x, user);
    hide Going, Kept, DefaultsValid, FirstDefault, TextDefaultsValid, TextDefault;
    hide EnvOf, Value, ClosedAt, Closed, PromptsValid, VisibleTri, RevTri, ImpliedTri, TriEquation;
    var c := st1.Of(x).(tri := t, val := Empty(g.Of(x).typ), chosen := NULL);
    if x == g.modules { PlainTri(g, d, st1, x, user); }
    GoingStore(g, d, st, st1, x, c, user);
    TriLater(g, st1, st1.Put(x, c), d, x, user);
  }

  lemma NewTextSolved(g: Graph, d: iset<nat>, st: State, x: nat, user: Option<User>)
    requires Going(g, d, st, x, user) && LimitsStored(g, st, x) && Textual(g.Of(x).typ)
    ensures var (st1, v) := TextValue(g, st, x);
      var st' := st1.Put(x, st1.Of(x).(tri := NO, val := v, chosen := NULL));
      Going(g, d, st', x, user) && HalfSolved(g, st', x, user)
  {
    ReadsBelow(g, d, st, x, user);
    hide Going, Kept, DefaultsValid, FirstDefault, TextDefaultsValid, TextDefault;
    hide EnvOf, Value, TextValue, ClosedAt, Closed, PromptsValid, VisibleTri, RevTri, ImpliedTri;
    TextSolved(g, d, st, x, user);
    var (st1, v) := TextValue(g, st, x);
    var c := st1.Of(x).(tri := NO, val := v, chosen := NULL);
    GoingStore(g, d, st, st1, x, c, user);
    LimitsLater(g, st1, st1.Put(x, c), d, x);
    if VisibleTri(g, st1, x) == NO || user.None? { TextDefaultsLater(g, st1, st1.Put(x, c), d, x, 0); }
  }

  lemma NewValueSolved(g: Graph, d: iset<nat>, st: State, x: nat, user: Option<User>)
    requires Going(g, d, st, x, user) && LimitsStored(g, st, x) && (Truth(g.Of(x).typ) || Textual(g.Of(x).typ))
    ensures Going(g, d, NewValue(g, st, x), x, user) && HalfSolved(g, NewValue(g, st, x), x, user)
  {
    ReadsBelow(g, d, st, x, user);
    hide Going, LimitsStored, HalfSolved, TruthValue, TextValue, Closed, ClosedAt;
    if Truth(g.Of(x).typ) {
      NewTruthSolved(g, d, st, x, user);
    } else {
      NewTextSolved(g, d, st, x, user);
    }
  }

  lemma TextRangeSolved(g: Graph, d: iset<nat>, st: State, x: nat, user: Option<User>)
    requires Going(g, d, st, x, user) && HalfSolved(g, st, x, user) && Textual(g.Of(x).typ)
    ensures var st' := ValidateRange(g, st, x); Going(g, d, st', x, user) && SolvesText(g, st', x, user)
  {
    var st' := ValidateRange(g, st, x);
    ReadsBelow(g, d, st, x, user);
    ClampSolved(g, d, st, x, user);
    hide Going, Kept, TextDefaultsValid, TextDefault, RangeValid, Clamp, ValidateRange, SolvesTri;
    hide LimitsValid, VisibleTri, Closed, ClosedAt;
    LimitsLater(g, st, st', d, x);
    if VisibleTri(g, st, x) == NO || user.None? { TextDefaultsLater(g, st, st', d, x, 0); }
  }

  lemma ValidateRangeSolved(g: Graph, d: iset<nat>, st: State, x: nat, user: Option<User>)
    requires Going(g, d, st, x, user) && HalfSolved(g, st, x, user)
    requires Truth(g.Of(x).typ) || Textual(g.Of(x).typ)
    ensures Going(g, d, ValidateRange(g, st, x), x, user) && Solves(g, ValidateRange(g, st, x), x, user)
  {
    if Textual(g.Of(x).typ) {
      hide Going, HalfSolved, SolvesText, ValidateRange;
      TextRangeSolved(g, d, st, x, user);
    } else {
      hide Going, SolvesTri;
      assert ValidateRange(g, st, x) == st;
    }
  }

  /** When MODULES is calculated, modules_val changes. */
  lemma ModulesValSolved(g: Graph, d: iset<nat>, st: State, x: nat, v: Tri, user: Option<User>)
    requires Going(g, d, st, x, user) && Solves(g, st, x, user) && x == g.modules
    ensures Going(g, d, st.(modulesVal := v), x, user) && Solves(g, st.(modulesVal := v), x, user)
  {
    var st' := st.(modulesVal := v);
    ReadsBelow(g, d, st, x, user);
    PlainNoM(g, st, d);
    SolvesLater(g, st, st', d, x, user);
    forall y: nat | y < |st.cells| ensures MaybeM(g, st', y) { assert MaybeM(g, st, y); }
  }

  lemma FinishSolved(g: Graph, d: iset<nat>, st: State, x: nat, before: Cell, user: Option<User>)
    requires Going(g, d, st, x, user) && Solves(g, st, x, user)
    ensures Going(g, d, Finish(g, st, x, before), x, user)
    ensures Solves(g, Finish(g, st, x, before), x, user)
  {
    ReadsBelow(g, d, st, x, user);
    var c := st.Of(x);
    if x == g.modules { ModulesValSolved(g, d, st, x, c.tri, user); }
    var changed := (c.tri, c.val, c.chosen) != (before.tri, before.val, before.chosen);
    var st1 := if changed && x == g.modules then st.(modulesVal := c.tri) else st;
    LaterSelf(g, st1, d);
    if g.Of(x).auto {
      GoingStore(g, d, st1, st1, x, c.(write := false), user);
      SolvesLater(g, st1, st1.Put(x, c.(write := false)), d, x, user);
    }
  }

  lemma EmptiedSolved(g: Graph, d: iset<nat>, st: State, x: nat, user: Option<User>)
    requires Going(g, d, st, x, user) && LimitsStored(g, st, x)
    ensures Going(g, d, Emptied(g, st, x), x, user) && LimitsStored(g, Emptied(g, st, x), x)
  {
    var c := st.Of(x);
    ReadsBelow(g, d, st, x, user);
    LaterSelf(g, st, d);
    GoingStore(g, d, st, st, x,
               c.(write := c.write || c.visible != NO, tri := NO, val := Empty(g.Of(x).typ), chosen := NULL), user);
    LimitsLater(g, st, Emptied(g, st, x), d, x);
  }

  /** The calculation of x solves its equation. */
  lemma CalculateGood(g: Graph, d: iset<nat>, st: State, x: nat, user: Option<User>)
    requires Going(g, d, st, x, user)
    ensures GoodAt(g, Calculate(g, st, x), x, user) && x !in Calculate(g, st, x).stale
  {
    var i, before := g.Of(x), st.Of(x);
    if !Truth(i.typ) && !Textual(i.typ) {
      GoingPut(g, d, st, x, before.(val := i.name, tri := NO), user);
    } else {
      var c0 := before.(write := false);
      GoingPut(g, d, st, x, c0, user);
      CalculationGood(g, d, st.Put(x, c0), x, before, user);
    }
  }

  lemma CalculationGood(g: Graph, d: iset<nat>, st: State, x: nat, before: Cell, user: Option<User>)
    requires Going(g, d, st, x, user) && (Truth(g.Of(x).typ) || Textual(g.Of(x).typ))
    ensures var st4 := ValidateRange(g, NewValue(g, Emptied(g, Visibility(g, st, x), x), x), x);
      var st' := Finish(g, st4, x, before);
      GoodAt(g, st', x, user) && x !in st'.stale
  {
    hide LimitsStored, HalfSolved, Solves;
    VisibilitySolved(g, d, st, x, user);
    var st1 := Visibility(g, st, x);
    EmptiedSolved(g, d, st1, x, user);
    var st2 := Emptied(g, st1, x);
    NewValueSolved(g, d, st2, x, user);
    var st3 := NewValue(g, st2, x);
    ValidateRangeSolved(g, d, st3, x, user);
    FinishSolved(g, d, ValidateRange(g, st3, x), x, before, user);
  }

  // ----- all calls -----

  lemma WithItselfClosed(g: Graph, d: iset<nat>, x: nat)
    requires Alone(g, d, x)
    ensures Closed(g, d + iset{x})
  {}

  /** A call for x itself, */
  lemma CalcGood(g: Graph, d: iset<nat>, st: State, x: nat, user: Option<User>)
    requires Alone(g, d, x) && Steady(g, st) && GoodAt(g, st, x, user)
    ensures GoodAt(g, Calc(g, st, x), x, user)
  {
    if x in st.stale {
      var st0 := st.(stale := st.stale - {x});
      assert st0.need == {} && Calc(g, st, x) == Calculate(g, st0, x);
      CalculateGood(g, d, st0, x, user);
    }
  }

  /** one for a symbol that x depends on, */
  lemma BelowGood(g: Graph, d: iset<nat>, st: State, y: nat, x: nat, user: Option<User>)
    requires Alone(g, d, x) && y in d && Steady(g, st) && GoodAt(g, st, x, user)
    ensures GoodAt(g, Calc(g, st, y), x, user)
  {
    CalcSteps(g, st, y, d);
    var st' := Calc(g, st, y);
    hide Calc, Step, Solves;
    StepUntouched(g, st, st', x, d);
    StepLater(g, st, st', d, d);
    GoodOutside(g, d, st, st', x, user);
  }

  lemma StepUntouched(g: Graph, st: State, st': State, x: nat, d: iset<nat>)
    requires Step(g, st, st', d, NULL) && x !in d
    ensures Untouched(st, st', x)
  {}

  /** and writes elsewhere keep x solved. */
  lemma OutsideGood(g: Graph, d: iset<nat>, st: State, st': State, plain: bool, x: nat, user: Option<User>)
    requires Alone(g, d, x) && GoodAt(g, st, x, user) && Outside(g, st, st', d + iset{x}, plain)
    requires plain ==> OnlyTristateM(g, st) && forall y :: y in d + iset{x} ==> g.Of(y).typ != Tristate
    ensures GoodAt(g, st', x, user)
  {
    if plain { PlainNoM(g, st, d); }
    assert Untouched(st, st', x);
    forall y: nat | y in d && y !in st.stale ensures SameRead(st, st', y) { assert Untouched(st, st', y); }
    GoodOutside(g, d, st, st', x, user);
  }

  /** What lasts. */
  ghost function Goodness(g: Graph, x: nat, plain: bool, user: Option<User>): State -> bool {
    (st: State) => GoodAt(g, st, x, user) && (plain ==> OnlyTristateM(g, st))
  }

  lemma GoodLasts(g: Graph, d: iset<nat>, x: nat, plain: bool, user: Option<User>)
    requires Alone(g, d, x) && (plain ==> forall y :: y in d + iset{x} ==> g.Of(y).typ != Tristate)
    ensures Lasting(g, d + iset{x}, plain, Goodness(g, x, plain, user))
  {
    var p, dx := Goodness(g, x, plain, user), d + iset{x};
    WithItselfClosed(g, d, x);
    hide Alone, GoodAt, Calc, OnlyTristateM, Closed;
    forall st: State, y: nat | Steady(g, st) && p(st) && y in dx ensures p(Calc(g, st, y)) {
      if y == x { CalcGood(g, d, st, x, user); } else { BelowGood(g, d, st, y, x, user); }
      CalcOnlyTristate(g, st, y, dx);
    }
    forall st: State, st': State | p(st) && Outside(g, st, st', dx, plain) ensures p(st') {
      OutsideGood(g, d, st, st', plain, x, user);
    }
  }

  lemma CalcOnlyTristate(g: Graph, st: State, y: nat, d: iset<nat>)
    requires Closed(g, d) && y in d && Steady(g, st)
    ensures OnlyTristateM(g, st) ==> OnlyTristateM(g, Calc(g, st, y))
  {
    CalcSteps(g, st, y, d);
  }

  /** Calls in any number and order, for any symbols, keep x solved, and solve it if it is among them. */
  lemma EachGood(g: Graph, d: iset<nat>, st: State, xs: seq<nat>, x: nat, user: Option<User>)
    requires Alone(g, d, x) && OwnMembers(g) && Steady(g, st) && GoodAt(g, st, x, user)
    ensures var st' := CalcEach(g, st, xs);
      Steady(g, st') && GoodAt(g, st', x, user) && st'.stale <= st.stale && (x in xs ==> x !in st'.stale)
  {
    GoodLasts(g, d, x, false, user);
    WithItselfClosed(g, d, x);
    hide Alone, GoodAt, Closed, OwnMembers, Lasting;
    EachHolds(g, st, xs, d + iset{x}, false, Goodness(g, x, false, user));
  }

  /** sym_clear_all_valid forgets all values and calculates MODULES, and with it what MODULES depends on, the symbols
      of m.
   */
  lemma ModulesGood(g: Graph, d: iset<nat>, m: iset<nat>, st: State, x: nat, user: Option<User>)
    requires Alone(g, d, x) && OwnMembers(g) && st.need == {}
    requires x < |st.cells| && x in st.stale && UserOf(st.Of(x)) == user
    requires g.modules in st.stale ==> ModulesAlone(g, m) && OnlyTristateM(g, st)
    ensures Steady(g, Calc(g, st, g.modules)) && GoodAt(g, Calc(g, st, g.modules), x, user)
    ensures x == g.modules ==> x !in Calc(g, st, g.modules).stale
  {
    if g.modules in st.stale {
      var q := g.modules;
      WithItselfClosed(g, m, q);
      CalcValidates(g, st, q, m + iset{q});
      CalcSteps(g, st, q, m + iset{q});
      if x == q {
        var st0 := st.(stale := st.stale - {q});
        StaleOnlyTristate(g, st, q);
        assert st0.need == {} && Calc(g, st, q) == Calculate(g, st0, q);
        CalculateGood(g, m, st0, q, user);
      } else if x in m {
        ModulesNeeds(g, d, m, st, x, user);
      } else {
        assert Untouched(st, Calc(g, st, q), x);
      }
    }
  }

  lemma StaleOnlyTristate(g: Graph, st: State, x: nat)
    ensures OnlyTristateM(g, st) ==> OnlyTristateM(g, st.(stale := st.stale - {x}))
  {
    if OnlyTristateM(g, st) {
      forall y: nat | y < |st.cells| ensures MaybeM(g, st.(stale := st.stale - {x}), y) { assert MaybeM(g, st, y); }
    }
  }

  /** MODULES is a bool that depends on the symbols of m only, none of them tristate, and these not on it. */
  ghost predicate ModulesAlone(g: Graph, m: iset<nat>) {
    Alone(g, m, g.modules) && PlainModules(g, m, g.modules)
  }

  /** A symbol that MODULES depends on. */
  lemma ModulesNeeds(g: Graph, d: iset<nat>, m: iset<nat>, st: State, x: nat, user: Option<User>)
    requires Alone(g, d, x) && ModulesAlone(g, m) && OwnMembers(g) && st.need == {} && OnlyTristateM(g, st)
    requires x in m && g.modules in st.stale && GoodAt(g, st, x, user) && x in st.stale
    ensures GoodAt(g, Calc(g, st, g.modules), x, user)
  {
    var q, b := g.modules, d * m;
    var st0 := st.(stale := st.stale - {q});
    BothAlone(g, d, m, x);
    StaleOnlyTristate(g, st, q);
    GoodLasts(g, b, x, true, user);
    WithItselfClosed(g, b, x);
    assert q !in b + iset{x};
    assert st0.need == {} && Calc(g, st, q) == Calculate(g, st0, q);
    hide Alone, Closed, OwnMembers, Lasting;
    assert Guarded(g, st0, b + iset{x}, true, Goodness(g, x, true, user));
    CalculateHolds(g, st0, q, b + iset{x}, true, Goodness(g, x, true, user));
  }

  lemma BothAlone(g: Graph, d: iset<nat>, m: iset<nat>, x: nat)
    requires Alone(g, d, x) && Closed(g, m) && x in m
    ensures Alone(g, d * m, x)
  {
    forall y | y in d * m ensures ClosedAt(g.Of(y), d * m) { assert ClosedAt(g.Of(y), d) && ClosedAt(g.Of(y), m); }
    assert ClosedAt(g.Of(x), m);
  }

  /** After sym_clear_all_valid, whatever symbols are asked for in whatever order, choices and their members too: a
      symbol that is no choice and no choice value, and does not depend on itself, gets the value of its equation if
      it is asked for. MODULES gets it in any case.
   */
  lemma EquationsHold(g: Graph, d: iset<nat>, m: iset<nat>, st: State, xs: seq<nat>, x: nat)
    requires Alone(g, d, x) && OwnMembers(g) && st.need == {} && x < |st.cells| && x in st.stale
    requires g.modules in st.stale ==> ModulesAlone(g, m) && OnlyTristateM(g, st)
    ensures var st', user := CalcEach(g, Calc(g, st, g.modules), xs), UserOf(st.Of(x));
      GoodAt(g, st', x, user) && (x in xs || x == g.modules ==> x !in st'.stale && Solves(g, st', x, user))
  {
    ModulesGood(g, d, m, st, x, UserOf(st.Of(x)));
    EachGood(g, d, Calc(g, st, g.modules), xs, x, UserOf(st.Of(x)));
  }
}
