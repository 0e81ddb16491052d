/** Choices (kconf/symbol.c): a choice that evaluates to y has exactly one member that is y, a visible one. */
module KconfigChoice {

  import opened KconfigExpr
  import opened KconfigSymbol
  import opened KconfigCalls

  // ----- expressions whose symbols are valid -----

  ghost predicate ValidIn(st: State, ns: set<nat>) { forall y :: y in ns ==> y !in st.stale }

  /** On valid symbols expr_calc_value changes nothing, and computes the value that the rewritings of
      expressions are proved against.
   */
  lemma {:induction false} ValidExpr(g: Graph, st: State, e: Expr)
    requires ValidIn(st, Numbers(e)) && g.modules !in st.stale
    ensures ExprTri(g, st, e) == (st, Value(e, EnvOf(g, st)))
    decreases e
  {
    hide Relate;
    match e
    case Sym(s) => ValidSym(g, st, s);
    case Not(a) => ValidExpr(g, st, a);
    case And(l, r) => ValidExpr(g, st, l); ValidExpr(g, st, r);
    case Or(l, r) => ValidExpr(g, st, l); ValidExpr(g, st, r);
    case Cmp(op, l, r) => ValidCmp(g, st, op, l, r);
  }

  lemma ValidCmp(g: Graph, st: State, op: CmpOp, l: Symbol, r: Symbol)
    requires ValidIn(st, SymNumbers(l) + SymNumbers(r)) && g.modules !in st.stale
    ensures ExprTri(g, st, Cmp(op, l, r)) == (st, Value(Cmp(op, l, r), EnvOf(g, st)))
  {
    ValidSym(g, st, l);
    ValidSym(g, st, r);
    hide CalcSym, Value, ExprTri, EnvOf;
    CmpTri(g, st, op, l, r);
  }

  /** A comparison, when MODULES is valid. */
  lemma CmpTri(g: Graph, st: State, op: CmpOp, l: Symbol, r: Symbol)
    requires g.modules !in CalcSym(g, CalcSym(g, st, l), r).stale
    ensures var st2 := CalcSym(g, CalcSym(g, st, l), r);
      ExprTri(g, st, Cmp(op, l, r)) == (st2, Value(Cmp(op, l, r), EnvOf(g, st2)))
  {
    var st2 := CalcSym(g, CalcSym(g, st, l), r);
    ValidRead(g, st2, l);
    ValidRead(g, st2, r);
    hide CalcSym, ReadString, Relate, Holds, EnvOf, Calc;
  }

  lemma ValidRead(g: Graph, st: State, s: Symbol)
    requires g.modules !in st.stale
    ensures ReadString(g, st, s) == st
  {}

  lemma ValidSym(g: Graph, st: State, s: Symbol)
    requires ValidIn(st, SymNumbers(s))
    ensures CalcSym(g, st, s) == st
  {
    if s.Config? { assert s.id in SymNumbers(s); }
  }

  /** What expressions read of a symbol. */
  predicate SameRead(st: State, st': State, y: nat) {
    st'.Of(y).tri == st.Of(y).tri && st'.Of(y).val == st.Of(y).val
  }

  /** MODULES, which says whether an m is read as such, is as before, or there is no m to read. */
  ghost predicate ModulesAgree(g: Graph, st: State, st': State, ns: set<nat>) {
    SameRead(st, st', g.modules) || forall y :: y in ns ==> st.Of(y).tri != MOD
  }

  /** The value of an expression depends on its symbols, and on MODULES, only. */
  lemma {:induction false} ValueAgrees(g: Graph, st: State, st': State, e: Expr)
    requires ModulesAgree(g, st, st', Numbers(e)) && forall y :: y in Numbers(e) ==> SameRead(st, st', y)
    ensures Value(e, EnvOf(g, st)) == Value(e, EnvOf(g, st'))
    decreases e
  {
    hide Relate, EnvOf, SameRead;
    match e
    case Sym(s) => SymAgrees(g, st, st', s);
    case Not(a) => ValueAgrees(g, st, st', a);
    case And(l, r) => ValueAgrees(g, st, st', l); ValueAgrees(g, st, st', r);
    case Or(l, r) => ValueAgrees(g, st, st', l); ValueAgrees(g, st, st', r);
    case Cmp(op, l, r) => RelateAgrees(g, st, st', l, r);
  }

  lemma RelateAgrees(g: Graph, st: State, st': State, l: Symbol, r: Symbol)
    requires ModulesAgree(g, st, st', SymNumbers(l) + SymNumbers(r))
    requires forall y :: y in SymNumbers(l) + SymNumbers(r) ==> SameRead(st, st', y)
    ensures Relate(l, r, EnvOf(g, st)) == Relate(l, r, EnvOf(g, st'))
  {
    hide SameRead, EnvOf, Relate, StringValue, Curr;
    SymAgrees(g, st, st', l);
    SymAgrees(g, st, st', r);
    SameStrto(g, st, st');
    RelateSame(l, r, EnvOf(g, st), EnvOf(g, st'));
  }

  lemma SameStrto(g: Graph, st: State, st': State)
    ensures EnvOf(g, st).strto == EnvOf(g, st').strto
  {}

  lemma RelateSame(l: Symbol, r: Symbol, env: Env, env': Env)
    requires StringValue(l, env) == StringValue(l, env') && StringValue(r, env) == StringValue(r, env')
    requires env.strto == env'.strto
    ensures Relate(l, r, env) == Relate(l, r, env')
  {
    hide StringValue, ParseString, StrCmp;
  }

  lemma SymAgrees(g: Graph, st: State, st': State, s: Symbol)
    requires ModulesAgree(g, st, st', SymNumbers(s)) && forall y :: y in SymNumbers(s) ==> SameRead(st, st', y)
    ensures Curr(s, EnvOf(g, st)) == Curr(s, EnvOf(g, st'))
    ensures StringValue(s, EnvOf(g, st)) == StringValue(s, EnvOf(g, st'))
  {
    if s.Config? { assert s.id in SymNumbers(s); }
  }

  // ----- what becomes valid -----

  lemma CalcValidates(g: Graph, st: State, x: nat, d: iset<nat>)
    requires Covered(g, st, d) && Closed(g, d) && x in d && st.need == {}
    ensures x !in Calc(g, st, x).stale
  {
    if x in st.stale { CalculateSteps(g, st.(stale := st.stale - {x}), x, d); }
  }

  /** Evaluating an expression makes its symbols valid, and its result is its value then. */
  lemma {:induction false} ExprValidates(g: Graph, st: State, e: Expr, d: iset<nat>)
    requires Closed(g, d) && Within(st, Numbers(e), d) && st.need == {} && g.modules !in st.stale
    ensures var (st', v) := ExprTri(g, st, e);
      Step(g, st, st', d, NULL) && ValidIn(st', Numbers(e)) && v == Value(e, EnvOf(g, st'))
    decreases Size(e)
  {
    ExprSteps(g, st, e, d);
    hide Step, Within, Relate;
    match e
    case Sym(s) => SymValidates(g, st, s, d);
    case Not(a) => ExprValidates(g, st, a, d);
    case And(l, r) => BothValidate(g, st, l, r, d);
    case Or(l, r) => BothValidate(g, st, l, r, d);
    case Cmp(op, l, r) => CmpValidates(g, st, op, l, r, d);
  }

  lemma CmpValidates(g: Graph, st: State, op: CmpOp, l: Symbol, r: Symbol, d: iset<nat>)
    requires Closed(g, d) && Within(st, SymNumbers(l) + SymNumbers(r), d) && st.need == {} && g.modules !in st.stale
    ensures var (st', v) := ExprTri(g, st, Cmp(op, l, r));
      ValidIn(st', SymNumbers(l) + SymNumbers(r)) && v == Value(Cmp(op, l, r), EnvOf(g, st'))
  {
    hide Step, EnvOf, Value, ExprTri, CalcSym, Closed;
    SymValidates(g, st, l, d);
    var st1 := CalcSym(g, st, l);
    SymSteps(g, st, l, d);
    WithinStep(g, st, st1, SymNumbers(r), d, NULL);
    StillFit(g, st, st1, d);
    SymValidates(g, st1, r, d);
    SymSteps(g, st1, r, d);
    var st2 := CalcSym(g, st1, r);
    StaysValid(g, st1, st2, SymNumbers(l), d);
    StillFit(g, st1, st2, d);
    CmpTri(g, st, op, l, r);
  }

  lemma {:induction false} BothValidate(g: Graph, st: State, l: Expr, r: Expr, d: iset<nat>)
    requires Closed(g, d) && Within(st, Numbers(l) + Numbers(r), d) && st.need == {} && g.modules !in st.stale
    ensures var (st1, v1) := ExprTri(g, st, l);
      var (st2, v2) := ExprTri(g, st1, r);
      ValidIn(st2, Numbers(l) + Numbers(r)) && v1 == Value(l, EnvOf(g, st2)) && v2 == Value(r, EnvOf(g, st2))
    decreases Size(l) + Size(r)
  {
    hide Step;
    ExprValidates(g, st, l, d);
    var (st1, v1) := ExprTri(g, st, l);
    StillFit(g, st, st1, d);
    WithinStep(g, st, st1, Numbers(r), d, NULL);
    ExprValidates(g, st1, r, d);
    var st2 := ExprTri(g, st1, r).0;
    StaysValid(g, st1, st2, Numbers(l), d);
    ValueAgrees(g, st1, st2, l);
  }

  lemma StillFit(g: Graph, st: State, st': State, d: iset<nat>)
    requires Step(g, st, st', d, NULL) && st.need == {} && g.modules !in st.stale
    ensures st'.need == {} && g.modules !in st'.stale && SameRead(st, st', g.modules) && st'.modulesVal == st.modulesVal
  {
    assert SameValue(st, st', g.modules);
  }

  lemma StaysValid(g: Graph, st: State, st': State, ns: set<nat>, d: iset<nat>)
    requires Step(g, st, st', d, NULL) && st.need == {} && g.modules !in st.stale && ValidIn(st, ns)
    ensures ValidIn(st', ns) && SameRead(st, st', g.modules) && forall y :: y in ns ==> SameRead(st, st', y)
  {
    assert SameValue(st, st', g.modules);
    forall y | y in ns ensures SameRead(st, st', y) { assert SameValue(st, st', y); }
  }

  lemma SymValidates(g: Graph, st: State, s: Symbol, d: iset<nat>)
    requires Covered(g, st, d) && Closed(g, d) && Within(st, SymNumbers(s), d) && st.need == {}
    ensures ValidIn(CalcSym(g, st, s), SymNumbers(s))
  {
    if s.Config? {
      assert s.id in SymNumbers(s);
      if s.id in st.stale { CalcValidates(g, st, s.id, d); }
    }
  }

  // ----- visibility -----

  /** The visibility from prompt number k on, of values that are there. */
  function PromptsTri(g: Graph, st: State, x: nat, k: nat, t: Tri): Tri
    requires k <= |g.Of(x).prompts|
    decreases |g.Of(x).prompts| - k
  {
    var i := g.Of(x);
    if k == |i.prompts| then t
    else
      PromptsTri(g, st, x, k + 1, Max(t, Unhidden(g, st, x, ValueOpt(i.prompts[k], EnvOf(g, st)))))
  }

  function VisibleTri(g: Graph, st: State, x: nat): Tri {
    var t := PromptsTri(g, st, x, 0, NO);
    if t == MOD && (g.Of(x).typ != Tristate || st.modulesVal == NO) then YES else t
  }

  ghost predicate PromptsValid(g: Graph, st: State, x: nat, k: nat) {
    forall j :: k <= j < |g.Of(x).prompts| ==> ValidIn(st, OptNumbers(g.Of(x).prompts[j]))
  }

  lemma {:induction false} ValidPrompts(g: Graph, st: State, x: nat, k: nat, t: Tri)
    requires k <= |g.Of(x).prompts| && PromptsValid(g, st, x, k) && g.modules !in st.stale
    ensures Prompts(g, st, x, k, t) == (st, PromptsTri(g, st, x, k, t))
    decreases |g.Of(x).prompts| - k
  {
    var i := g.Of(x);
    if k < |i.prompts| {
      var e := i.prompts[k];
      if e.Some? { ValidExpr(g, st, e.value); }
      ValidPrompts(g, st, x, k + 1, Max(t, Unhidden(g, st, x, ValueOpt(e, EnvOf(g, st)))));
    }
  }

  /** What a visibility is computed from does not change any more. */
  ghost predicate SameForPrompts(g: Graph, st: State, st': State, x: nat) {
    && (forall p :: p in g.Of(x).prompts ==> ModulesAgree(g, st, st', OptNumbers(p)))
    && (g.Of(x).choice.Some? ==> SameRead(st, st', g.Of(x).choice.value))
    && forall p, y :: p in g.Of(x).prompts && y in OptNumbers(p) ==> SameRead(st, st', y)
  }

  lemma {:induction false} PromptsAgree(g: Graph, st: State, st': State, x: nat, k: nat, t: Tri)
    requires k <= |g.Of(x).prompts| && SameForPrompts(g, st, st', x)
    ensures PromptsTri(g, st, x, k, t) == PromptsTri(g, st', x, k, t)
    decreases |g.Of(x).prompts| - k
  {
    var i := g.Of(x);
    if k < |i.prompts| {
      var e := i.prompts[k];
      assert e in i.prompts;
      if e.Some? { ValueAgrees(g, st, st', e.value); }
      PromptsAgree(g, st, st', x, k + 1, Max(t, Unhidden(g, st, x, ValueOpt(e, EnvOf(g, st)))));
    }
  }

  /** One prompt. */
  lemma PromptValidates(g: Graph, st: State, x: nat, e: Option<Expr>, d: iset<nat>)
    requires Closed(g, d) && e in g.Of(x).prompts && forall p :: p in g.Of(x).prompts ==> Within(st, OptNumbers(p), d)
    requires st.need == {} && g.modules !in st.stale
    ensures var (st', v) := OptTri(g, st, e);
      && Step(g, st, st', d, NULL) && ValidIn(st', OptNumbers(e)) && v == ValueOpt(e, EnvOf(g, st'))
      && st'.need == {} && g.modules !in st'.stale
      && forall p :: p in g.Of(x).prompts ==> Within(st', OptNumbers(p), d)
  {
    var (st1, v) := OptTri(g, st, e);
    OptSteps(g, st, e, d);
    hide Step, Within;
    if e.Some? { ExprValidates(g, st, e.value, d); }
    StillFit(g, st, st1, d);
    forall p | p in g.Of(x).prompts ensures Within(st1, OptNumbers(p), d) {
      WithinStep(g, st, st1, OptNumbers(p), d, NULL);
    }
  }

  /** The calculated visibility of a choice value is that of the values then. */
  lemma {:induction false} PromptsValidate(g: Graph, st: State, x: nat, k: nat, t: Tri, d: iset<nat>)
    requires Closed(g, d) && k <= |g.Of(x).prompts| && forall p :: p in g.Of(x).prompts ==> Within(st, OptNumbers(p), d)
    requires st.need == {} && g.modules !in st.stale && (g.Of(x).choice.Some? ==> g.Of(x).choice.value !in st.stale)
    ensures var (st', v) := Prompts(g, st, x, k, t);
      PromptsValid(g, st', x, k) && v == PromptsTri(g, st', x, k, t)
    decreases |g.Of(x).prompts| - k
  {
    if k < |g.Of(x).prompts| {
      var e := g.Of(x).prompts[k];
      var (st1, v) := OptTri(g, st, e);
      PromptValidates(g, st, x, e, d);
      hide Step, Within, EnvOf, SameValue, OptTri, ValueOpt, Unhidden, Closed, PromptsValid, PromptsTri;
      ChoiceStays(g, st, st1, x, d);
      PromptsValidate(g, st1, x, k + 1, Max(t, Unhidden(g, st1, x, v)), d);
      PromptJoined(g, st1, x, k, t, v, d);
    }
  }

  /** Prompt number k has been evaluated; the following ones leave its value as it is. */
  lemma PromptJoined(g: Graph, st: State, x: nat, k: nat, t: Tri, v: Tri, d: iset<nat>)
    requires Closed(g, d) && k < |g.Of(x).prompts| && forall p :: p in g.Of(x).prompts ==> Within(st, OptNumbers(p), d)
    requires st.need == {} && g.modules !in st.stale && (g.Of(x).choice.Some? ==> g.Of(x).choice.value !in st.stale)
    requires var e := g.Of(x).prompts[k]; ValidIn(st, OptNumbers(e)) && v == ValueOpt(e, EnvOf(g, st))
    requires var (st', w) := Prompts(g, st, x, k + 1, Max(t, Unhidden(g, st, x, v)));
      PromptsValid(g, st', x, k + 1) && w == PromptsTri(g, st', x, k + 1, Max(t, Unhidden(g, st, x, v)))
    ensures var (st', w) := Prompts(g, st, x, k + 1, Max(t, Unhidden(g, st, x, v)));
      PromptsValid(g, st', x, k) && w == PromptsTri(g, st', x, k, t)
  {
    var e, t1 := g.Of(x).prompts[k], Max(t, Unhidden(g, st, x, v));
    PromptsSteps(g, st, x, k + 1, t1, d);
    hide Step, Within, EnvOf, SameValue, ValueOpt, Unhidden, Closed, Prompts;
    var st' := Prompts(g, st, x, k + 1, t1).0;
    StaysValid(g, st, st', OptNumbers(e), d);
    OptAgrees(g, st, st', e);
    ChoiceStays(g, st, st', x, d);
    assert t1 == Max(t, Unhidden(g, st', x, ValueOpt(e, EnvOf(g, st'))));
  }

  lemma ChoiceStays(g: Graph, st: State, st': State, x: nat, d: iset<nat>)
    requires Step(g, st, st', d, NULL) && st.need == {}
    requires g.Of(x).choice.Some? ==> g.Of(x).choice.value !in st.stale
    ensures g.Of(x).choice.Some? ==> g.Of(x).choice.value !in st'.stale && SameValue(st, st', g.Of(x).choice.value)
    ensures forall v :: Unhidden(g, st', x, v) == Unhidden(g, st, x, v)
  {
    if g.Of(x).choice.Some? { assert SameValue(st, st', g.Of(x).choice.value); }
  }

  lemma OptAgrees(g: Graph, st: State, st': State, e: Option<Expr>)
    requires ModulesAgree(g, st, st', OptNumbers(e)) && forall y :: y in OptNumbers(e) ==> SameRead(st, st', y)
    ensures ValueOpt(e, EnvOf(g, st)) == ValueOpt(e, EnvOf(g, st'))
  {
    if e.Some? { ValueAgrees(g, st, st', e.value); }
  }

  // ----- choices -----

  /** A member of choice c: no defaults, and prompts that depend on the choice and on d only. */
  ghost predicate MemberOk(g: Graph, c: nat, m: nat, d: iset<nat>) {
    var i := g.Of(m);
    && m !in d && m != c && i.choice == Some(c) && Truth(i.typ) && !i.isChoice && i.defaults == [] && i.members == []
    && forall p, y :: p in i.prompts && y in OptNumbers(p) ==> y in d || y == c
  }

  /** A choice whose defaults are members and that depends, like its members, on a closed set d of other
      symbols, MODULES among them.
   */
  ghost predicate Exclusive(g: Graph, c: nat, d: iset<nat>) {
    var i := g.Of(c);
    && Closed(g, d) && g.modules in d && c !in d && i.isChoice && i.choice.None? && Truth(i.typ)
    && (forall p :: p in i.prompts ==> Inside(OptNumbers(p), d))
    && Inside(OptNumbers(i.dirDep), d) && Inside(OptNumbers(i.revDep), d) && Inside(OptNumbers(i.implied), d)
    && (forall f :: f in i.defaults ==>
      Inside(OptNumbers(f.cond), d) && DefaultSymbol(f) >= 0 && DefaultSymbol(f) in i.members)
    && (forall m :: m in i.members ==> MemberOk(g, c, m, d))
  }

  /** Nothing waits, MODULES is valid, the members are not selected or implied (which is never calculated for
      choice values), and the user's choice, if any, is a member.
   */
  ghost predicate Ready(g: Graph, st: State, c: nat) { g.modules !in st.stale && Prepared(g, st, c) }

  ghost predicate Prepared(g: Graph, st: State, c: nat) {
    && st.need == {} && c < |st.cells|
    && (st.Of(c).userChosen == NULL || (st.Of(c).userChosen >= 0 && st.Of(c).userChosen in g.Of(c).members))
    && forall m :: m in g.Of(c).members ==> m < |st.cells| && st.Of(m).revDep == NO && st.Of(m).implied == NO
  }

  /** The stored visibility is what the valid values make it. */
  ghost predicate Shown(g: Graph, st: State, m: nat) {
    PromptsValid(g, st, m, 0) && st.Of(m).visible == VisibleTri(g, st, m)
  }

  lemma ShownStays(g: Graph, st: State, st': State, c: nat, m: nat, d: iset<nat>)
    requires MemberOk(g, c, m, d) && Shown(g, st, m) && st'.Of(m).visible == st.Of(m).visible
    requires SameRead(st, st', g.modules) && st'.modulesVal == st.modulesVal && st'.stale <= st.stale
    requires SameRead(st, st', c) && forall y: nat :: y in d && y !in st.stale ==> SameRead(st, st', y)
    ensures Shown(g, st', m)
  {
    forall p, y | p in g.Of(m).prompts && y in OptNumbers(p) ensures SameRead(st, st', y) {
      if y != c { assert y in d && y !in st.stale; }
    }
    PromptsAgree(g, st, st', m, 0, NO);
  }

  /** After a call within d. */
  lemma ShownAfter(g: Graph, st: State, st': State, c: nat, m: nat, d: iset<nat>, d': iset<nat>)
    requires MemberOk(g, c, m, d) && Shown(g, st, m) && Step(g, st, st', d', NULL) && m !in d'
    requires st.need == {} && g.modules !in st.stale && c !in st.stale
    ensures Shown(g, st', m)
  {
    assert Untouched(st, st', m) && SameValue(st, st', g.modules) && SameValue(st, st', c);
    forall y: nat | y in d && y !in st.stale ensures SameRead(st, st', y) { assert SameValue(st, st', y); }
    ShownStays(g, st, st', c, m, d);
  }

  lemma MemberReads(g: Graph, st: State, c: nat, m: nat, d: iset<nat>)
    requires MemberOk(g, c, m, d) && c !in st.stale
    ensures VisibilityReads(g, st, m, d)
  {}

  /** sym_calc_visibility of a member, when the choice is valid. */
  lemma MemberShown(g: Graph, st: State, c: nat, m: nat, d: iset<nat>)
    requires Closed(g, d) && MemberOk(g, c, m, d) && m < |st.cells|
    requires st.need == {} && g.modules !in st.stale && c !in st.stale
    ensures var st' := Visibility(g, st, m);
      && Step(g, st, st', d + iset{m}, NULL) && Shown(g, st', m)
      && st'.Of(m) == st.Of(m).(visible := st'.Of(m).visible) && (m in st'.stale <==> m in st.stale)
  {
    MemberReads(g, st, c, m, d);
    VisibilityAround(g, st, m, d);
    PromptsSteps(g, st, m, 0, NO, d);
    PromptsValidate(g, st, m, 0, NO, d);
    var st1 := Prompts(g, st, m, 0, NO).0;
    assert Untouched(st, st1, m);
    hide Step;
    var st2 := Visibility(g, st, m);
    assert SameForPrompts(g, st1, st2, m);
    PromptsAgree(g, st1, st2, m, 0, NO);
  }

  /** A member but for its visibility and its write flag. */
  predicate SameMember(st: State, st': State, m: nat) {
    && (m in st'.stale <==> m in st.stale)
    && st'.Of(m) == st.Of(m).(visible := st'.Of(m).visible, write := st'.Of(m).write)
  }

  /** The choice and its members, seen over a call that is made while the choice is calculated. */
  ghost predicate Around(g: Graph, st: State, st': State, c: nat) {
    && |st'.cells| == |st.cells| && st'.need == {} && g.modules !in st'.stale && c !in st'.stale
    && forall m :: m in g.Of(c).members ==> SameMember(st, st', m)
  }

  lemma AroundTwice(g: Graph, st: State, st1: State, st2: State, c: nat)
    requires Around(g, st, st1, c) && Around(g, st1, st2, c)
    ensures Around(g, st, st2, c)
  {
    forall m | m in g.Of(c).members ensures SameMember(st, st2, m) {
      assert SameMember(st, st1, m) && SameMember(st1, st2, m);
    }
  }

  ghost predicate AllShown(g: Graph, st: State, c: nat) {
    forall m :: m in g.Of(c).members ==> Shown(g, st, m)
  }

  ghost predicate Fit(g: Graph, st: State, c: nat) {
    && st.need == {} && g.modules !in st.stale && c !in st.stale && c < |st.cells|
    && forall m :: m in g.Of(c).members ==> m < |st.cells|
  }

  /** A call within d leaves the choice and its members as they are. */
  lemma AroundStep(g: Graph, st: State, st': State, c: nat, d: iset<nat>)
    requires Exclusive(g, c, d) && Fit(g, st, c) && Step(g, st, st', d, NULL)
    ensures Around(g, st, st', c) && Fit(g, st', c) && st'.Of(c) == st.Of(c)
    ensures AllShown(g, st, c) ==> AllShown(g, st', c)
  {
    assert Untouched(st, st', c);
    forall m | m in g.Of(c).members ensures SameMember(st, st', m) && (AllShown(g, st, c) ==> Shown(g, st', m)) {
      assert MemberOk(g, c, m, d) && Untouched(st, st', m);
      if AllShown(g, st, c) { ShownAfter(g, st, st', c, m, d, d); }
    }
  }

  lemma NotInGroup(g: Graph, c: nat, o: nat, m: nat, d: iset<nat>)
    requires MemberOk(g, c, o, d) && o != m
    ensures o !in d + iset{m}
  {}

  lemma OneMoreShown(g: Graph, st: State, c: nat, m: nat, d: iset<nat>)
    requires Exclusive(g, c, d) && Fit(g, st, c) && m in g.Of(c).members
    ensures var st1 := Visibility(g, st, m);
      && Shown(g, st1, m) && (forall o :: o in g.Of(c).members && Shown(g, st, o) ==> Shown(g, st1, o))
      && Around(g, st, st1, c) && Fit(g, st1, c) && st1.Of(c) == st.Of(c)
  {
    hide Shown, Step, Around, Visibility, MemberOk, Closed, Exclusive;
    IsMember(g, c, m, d);
    FitReads(g, st, c);
    var st1 := Visibility(g, st, m);
    MemberShown(g, st, c, m, d);
    OthersShown(g, st, st1, c, m, d);
    hide Fit;
    forall o | o in g.Of(c).members && Shown(g, st, o) && o != m ensures Shown(g, st1, o) {
      IsMember(g, c, o, d);
      NotInGroup(g, c, o, m, d);
      ShownAfter(g, st, st1, c, o, d, d + iset{m});
    }
  }

  lemma IsMember(g: Graph, c: nat, m: nat, d: iset<nat>)
    requires Exclusive(g, c, d) && m in g.Of(c).members
    ensures Closed(g, d) && MemberOk(g, c, m, d)
  {}

  lemma FitReads(g: Graph, st: State, c: nat)
    requires Fit(g, st, c)
    ensures st.need == {} && g.modules !in st.stale && c !in st.stale
    ensures forall m :: m in g.Of(c).members ==> m < |st.cells|
  {}

  /** The members' visibilities: all are shown in the end. */
  lemma {:induction false} MembersShown(g: Graph, st: State, c: nat, k: nat, allSet: bool, d: iset<nat>)
    requires Exclusive(g, c, d) && Fit(g, st, c) && k <= |g.Of(c).members|
    requires forall j :: 0 <= j < k ==> Shown(g, st, g.Of(c).members[j])
    ensures var st' := MemberVisibilities(g, st, c, k, allSet).0;
      AllShown(g, st', c) && Around(g, st, st', c) && Fit(g, st', c) && st'.Of(c) == st.Of(c)
    decreases |g.Of(c).members| - k
  {
    hide Shown, Exclusive;
    if k < |g.Of(c).members| {
      hide Around, Fit;
      var m := g.Of(c).members[k];
      OneMoreShown(g, st, c, m, d);
      var st1 := Visibility(g, st, m);
      var set1 := allSet && (Visible(st1, m) ==> st1.Of(m).defUser);
      MembersShown(g, st1, c, k + 1, set1, d);
      AroundTwice(g, st, st1, MemberVisibilities(g, st1, c, k + 1, set1).0, c);
    }
  }

  lemma OthersShown(g: Graph, st: State, st1: State, c: nat, m: nat, d: iset<nat>)
    requires Exclusive(g, c, d) && Fit(g, st, c) && m in g.Of(c).members
    requires Step(g, st, st1, d + iset{m}, NULL)
    requires st1.Of(m) == st.Of(m).(visible := st1.Of(m).visible) && (m in st1.stale <==> m in st.stale)
    ensures Around(g, st, st1, c) && Fit(g, st1, c) && st1.Of(c) == st.Of(c)
  {
    assert MemberOk(g, c, m, d) && Untouched(st, st1, c);
    forall o | o in g.Of(c).members ensures SameMember(st, st1, o) {
      assert MemberOk(g, c, o, d);
      if o != m { assert Untouched(st, st1, o); }
    }
  }

  // ----- no visible member is m under a choice that is y -----

  lemma {:induction false} PromptsBinary(g: Graph, st: State, m: nat, k: nat, t: Tri)
    requires k <= |g.Of(m).prompts| && g.Of(m).typ == Tristate && g.Of(m).choice.Some? && t != MOD
    requires st.Of(g.Of(m).choice.value).tri == YES
    ensures PromptsTri(g, st, m, k, t) != MOD
    decreases |g.Of(m).prompts| - k
  {
    if k < |g.Of(m).prompts| {
      PromptsBinary(g, st, m, k + 1, Max(t, Unhidden(g, st, m, ValueOpt(g.Of(m).prompts[k], EnvOf(g, st)))));
    }
  }

  lemma ShownBinary(g: Graph, st: State, c: nat, m: nat, d: iset<nat>)
    requires MemberOk(g, c, m, d) && Shown(g, st, m) && st.Of(c).tri == YES
    ensures st.Of(m).visible != MOD
  {
    if g.Of(m).typ == Tristate { PromptsBinary(g, st, m, 0, NO); }
  }

  // ----- the choice -----

  /** The member to choose: the first default from number k on whose condition is not n and that is visible, or
      else the first visible member.
   */
  function Preferred(g: Graph, st: State, c: nat, k: nat): int
    requires k <= |g.Of(c).defaults|
    decreases |g.Of(c).defaults| - k
  {
    if k == |g.Of(c).defaults| then FirstVisible(st, g.Of(c).members)
    else
      var f := g.Of(c).defaults[k];
      if ValueOpt(f.cond, EnvOf(g, st)) != NO && Visible(st, DefaultSymbol(f)) then DefaultSymbol(f)
      else Preferred(g, st, c, k + 1)
  }

  /** The symbols that decide it are valid. */
  ghost predicate PreferenceValid(g: Graph, st: State, c: nat, k: nat)
    requires k <= |g.Of(c).defaults|
    decreases |g.Of(c).defaults| - k
  {
    k < |g.Of(c).defaults| ==>
      var f := g.Of(c).defaults[k];
      && ValidIn(st, OptNumbers(f.cond))
      && (!(ValueOpt(f.cond, EnvOf(g, st)) != NO && Visible(st, DefaultSymbol(f))) ==> PreferenceValid(g, st, c, k + 1))
  }

  lemma {:induction false} ChoiceDefaultPicks(g: Graph, st: State, c: nat, k: nat, d: iset<nat>)
    requires Exclusive(g, c, d) && Fit(g, st, c) && k <= |g.Of(c).defaults|
    ensures var (st', r) := ChoiceDefault(g, st, c, k);
      && r == Preferred(g, st', c, k) && PreferenceValid(g, st', c, k)
      && (r == NULL || (r >= 0 && r in g.Of(c).members && Visible(st', r)))
    decreases |g.Of(c).defaults| - k
  {
    var i := g.Of(c);
    if k < |i.defaults| {
      var f := i.defaults[k];
      assert f in i.defaults;
      var (st1, v) := OptTri(g, st, f.cond);
      CondSteps(g, st, c, f, d);
      hide Exclusive, Step, Fit, EnvOf, Value;
      if !(v != NO && Visible(st1, DefaultSymbol(f))) {
        ChoiceDefaultPicks(g, st1, c, k + 1, d);
        DefaultsStep(g, st1, c, k + 1, d);
        CondStays(g, st1, ChoiceDefault(g, st1, c, k + 1).0, c, f, d);
      }
    }
  }

  /** The condition of one default. */
  lemma CondSteps(g: Graph, st: State, c: nat, f: Default, d: iset<nat>)
    requires Exclusive(g, c, d) && Fit(g, st, c) && f in g.Of(c).defaults
    ensures var (st', v) := OptTri(g, st, f.cond);
      && Step(g, st, st', d, NULL) && Fit(g, st', c) && ValidIn(st', OptNumbers(f.cond))
      && v == ValueOpt(f.cond, EnvOf(g, st'))
      && DefaultSymbol(f) in g.Of(c).members
  {
    WithinSubset(st, OptNumbers(f.cond), d);
    OptSteps(g, st, f.cond, d);
    hide Step;
    if f.cond.Some? { ExprValidates(g, st, f.cond.value, d); }
    AroundStep(g, st, OptTri(g, st, f.cond).0, c, d);
  }

  lemma DefaultsStep(g: Graph, st: State, c: nat, k: nat, d: iset<nat>)
    requires Exclusive(g, c, d) && k <= |g.Of(c).defaults|
    ensures Step(g, st, ChoiceDefault(g, st, c, k).0, d, NULL)
  {
    ChoiceDefaultSteps(g, st, c, k, d);
  }

  /** Neither the condition nor the visibility of a default changes any more. */
  lemma CondStays(g: Graph, st: State, st': State, c: nat, f: Default, d: iset<nat>)
    requires Exclusive(g, c, d) && Fit(g, st, c) && f in g.Of(c).defaults && Step(g, st, st', d, NULL)
    requires ValidIn(st, OptNumbers(f.cond)) && DefaultSymbol(f) in g.Of(c).members
    ensures ValueOpt(f.cond, EnvOf(g, st')) == ValueOpt(f.cond, EnvOf(g, st)) && ValidIn(st', OptNumbers(f.cond))
    ensures Visible(st', DefaultSymbol(f)) == Visible(st, DefaultSymbol(f))
  {
    StaysValid(g, st, st', OptNumbers(f.cond), d);
    OptAgrees(g, st, st', f.cond);
    var m: nat := DefaultSymbol(f);
    assert MemberOk(g, c, m, d) && Untouched(st, st', m);
  }

  /** Writing the choice's own cell, its value excepted. */
  lemma PutChoice(g: Graph, st: State, c: nat, cell: Cell, d: iset<nat>)
    requires Exclusive(g, c, d) && Fit(g, st, c) && cell.val == st.Of(c).val
    ensures Around(g, st, st.Put(c, cell), c) && Fit(g, st.Put(c, cell), c)
    ensures AllShown(g, st, c) && cell.tri == st.Of(c).tri ==> AllShown(g, st.Put(c, cell), c)
  {
    var st' := st.Put(c, cell);
    forall m | m in g.Of(c).members
      ensures SameMember(st, st', m) && (AllShown(g, st, c) && cell.tri == st.Of(c).tri ==> Shown(g, st', m))
    {
      assert MemberOk(g, c, m, d);
      if AllShown(g, st, c) && cell.tri == st.Of(c).tri { ShownStays(g, st, st', c, m, d); }
    }
  }

  /** The user's choice if it is visible. */
  function Picked(g: Graph, st: State, c: nat): int {
    if Visible(st, st.Of(c).userChosen) then st.Of(c).userChosen else Preferred(g, st, c, 0)
  }

  ghost predicate Decided(g: Graph, st: State, c: nat) {
    !Visible(st, st.Of(c).userChosen) ==> PreferenceValid(g, st, c, 0)
  }

  lemma {:induction false} FirstVisibleSame(st: State, st': State, members: seq<nat>)
    requires forall m :: m in members ==> Visible(st', m) == Visible(st, m)
    ensures FirstVisible(st', members) == FirstVisible(st, members)
    decreases |members|
  {
    if members != [] {
      assert Visible(st', members[0]) == Visible(st, members[0]);
      FirstVisibleSame(st, st', members[1..]);
    }
  }

  /** What the preferred member depends on has not changed. */
  ghost predicate SamePreference(g: Graph, st: State, st': State, c: nat, d: iset<nat>) {
    && st'.stale <= st.stale && g.modules !in st.stale
    && (forall y: nat :: y in d && y !in st.stale ==> SameRead(st, st', y))
    && forall m :: m in g.Of(c).members ==> Visible(st', m) == Visible(st, m)
  }

  lemma {:induction false} PreferredSame(g: Graph, st: State, st': State, c: nat, k: nat, d: iset<nat>)
    requires Exclusive(g, c, d) && k <= |g.Of(c).defaults| && SamePreference(g, st, st', c, d)
    requires PreferenceValid(g, st, c, k)
    ensures Preferred(g, st', c, k) == Preferred(g, st, c, k) && PreferenceValid(g, st', c, k)
    decreases |g.Of(c).defaults| - k
  {
    hide MemberOk, Closed, Visible, FirstVisible, ValueOpt;
    var i := g.Of(c);
    if k == |i.defaults| {
      FirstVisibleSame(st, st', i.members);
    } else {
      var f := i.defaults[k];
      assert f in i.defaults;
      var m: nat := DefaultSymbol(f);
      assert Visible(st', m) == Visible(st, m);
      OptAgrees(g, st, st', f.cond);
      if !(ValueOpt(f.cond, EnvOf(g, st)) != NO && Visible(st, m)) { PreferredSame(g, st, st', c, k + 1, d); }
    }
  }

  /** The choice's own cell does not matter. */
  lemma PutPreference(g: Graph, st: State, c: nat, cell: Cell, d: iset<nat>)
    requires Exclusive(g, c, d) && g.modules !in st.stale
    ensures SamePreference(g, st, st.Put(c, cell), c, d)
  {
    forall m | m in g.Of(c).members ensures Visible(st.Put(c, cell), m) == Visible(st, m) {
      assert MemberOk(g, c, m, d);
    }
  }

  lemma PickedSame(g: Graph, st: State, st': State, c: nat, d: iset<nat>)
    requires Exclusive(g, c, d) && SamePreference(g, st, st', c, d) && st'.Of(c).userChosen == st.Of(c).userChosen
    requires st.Of(c).userChosen == NULL || (st.Of(c).userChosen >= 0 && st.Of(c).userChosen in g.Of(c).members)
    requires Decided(g, st, c)
    ensures Picked(g, st', c) == Picked(g, st, c) && Decided(g, st', c)
  {
    if !Visible(st, st.Of(c).userChosen) { PreferredSame(g, st, st', c, 0, d); }
  }

  /** Where the user's choice is not visible. */
  lemma DefaultPicked(g: Graph, st: State, c: nat, d: iset<nat>)
    requires Exclusive(g, c, d) && Fit(g, st, c) && AllShown(g, st, c)
    ensures var (st3, r) := ChoiceDefault(g, st, c, 0);
      var st' := if r == NULL then st3.Put(c, st3.Of(c).(tri := NO)) else st3;
      && Around(g, st, st', c) && Fit(g, st', c) && st'.Of(c) == (if r == NULL then st.Of(c).(tri := NO) else st.Of(c))
      && r == Preferred(g, st', c, 0) && PreferenceValid(g, st', c, 0)
      && (r == NULL || (AllShown(g, st', c) && r >= 0 && r in g.Of(c).members && Visible(st', r)))
  {
    hide Shown, Step, AllShown, Around, Preferred, PreferenceValid, Exclusive;
    DefaultsStep(g, st, c, 0, d);
    ChoiceDefaultPicks(g, st, c, 0, d);
    var (st3, r) := ChoiceDefault(g, st, c, 0);
    AroundStep(g, st, st3, c, d);
    var cell := st3.Of(c).(tri := NO);
    PutChoice(g, st3, c, cell, d);
    AroundTwice(g, st, st3, st3.Put(c, cell), c);
    PutPreference(g, st3, c, cell, d);
    PreferredSame(g, st3, st3.Put(c, cell), c, 0, d);
  }

  /** Looking for the default shows or hides no member. */
  lemma VisibleUser(g: Graph, st: State, st': State, c: nat, d: iset<nat>)
    requires Exclusive(g, c, d) && Step(g, st, st', d, NULL)
    ensures forall m :: m in g.Of(c).members ==> Visible(st', m) == Visible(st, m)
  {
    forall m | m in g.Of(c).members ensures Visible(st', m) == Visible(st, m) {
      assert MemberOk(g, c, m, d) && Untouched(st, st', m);
    }
  }

  /** sym_calc_choice: it picks a visible member and leaves the choice y, or there is none and it becomes n. */
  lemma ChoicePicks(g: Graph, st: State, c: nat, d: iset<nat>)
    requires Exclusive(g, c, d) && Fit(g, st, c) && st.Of(c).tri == YES
    requires st.Of(c).userChosen == NULL || (st.Of(c).userChosen >= 0 && st.Of(c).userChosen in g.Of(c).members)
    ensures var (st', r) := CalcChoice(g, st, c);
      && Around(g, st, st', c) && Fit(g, st', c) && st'.Of(c).userChosen == st.Of(c).userChosen
      && r == Picked(g, st', c) && Decided(g, st', c)
      && (if r == NULL then st'.Of(c).tri == NO
          else st'.Of(c).tri == YES && r >= 0 && r in g.Of(c).members && Visible(st', r) && AllShown(g, st', c))
  {
    hide Shown, Step, AllShown, Around, Preferred, PreferenceValid, ChoiceDefault;
    MembersShown(g, st, c, 0, st.Of(c).defUser, d);
    var (st1, keep) := MemberVisibilities(g, st, c, 0, st.Of(c).defUser);
    var cell := st1.Of(c).(defUser := st1.Of(c).defUser && keep);
    PutChoice(g, st1, c, cell, d);
    var st2 := st1.Put(c, cell);
    AroundTwice(g, st, st1, st2, c);
    if !Visible(st2, st2.Of(c).userChosen) {
      DefaultPicked(g, st2, c, d);
      var (st3, r) := ChoiceDefault(g, st2, c, 0);
      var st' := if r == NULL then st3.Put(c, st3.Of(c).(tri := NO)) else st3;
      AroundTwice(g, st, st2, st', c);
      DefaultsStep(g, st2, c, 0, d);
      VisibleUser(g, st2, st3, c, d);
    }
  }

  /** The choice is calculated: if y, its chosen symbol is a visible member, and every member is shown as the
      values have it, so that none is visible as m.
   */
  ghost predicate Chosen(g: Graph, st: State, c: nat) {
    && Fit(g, st, c)
    && (forall m :: m in g.Of(c).members ==> st.Of(m).revDep == NO && st.Of(m).implied == NO)
    && (st.Of(c).tri == YES ==>
      && AllShown(g, st, c) && st.Of(c).chosen >= 0 && st.Of(c).chosen in g.Of(c).members
      && Visible(st, st.Of(c).chosen))
  }

  /** The chosen member is the one to pick, of the user's choice, the defaults and the first visible one. */
  ghost predicate WellPicked(g: Graph, st: State, c: nat) {
    && (st.Of(c).userChosen == NULL || (st.Of(c).userChosen >= 0 && st.Of(c).userChosen in g.Of(c).members))
    && (st.Of(c).tri == YES ==> st.Of(c).chosen == Picked(g, st, c) && Decided(g, st, c))
  }

  lemma PickedAfterWrites(g: Graph, st: State, st': State, c: nat, d: iset<nat>)
    requires Exclusive(g, c, d) && WellPicked(g, st, c) && SameButWrite(st, st') && Chosen(g, st, c)
    ensures WellPicked(g, st', c)
  {
    forall y: nat ensures st'.Of(y) == st.Of(y).(write := st'.Of(y).write) {
      if y < |st.cells| { assert st'.Of(y) == st.Of(y).(write := st'.Of(y).write); }
    }
    if st.Of(c).tri == YES { PickedSame(g, st, st', c, d); }
  }

  /** Nothing but a write flag. */
  predicate SameButWrite(st: State, st': State) {
    && |st'.cells| == |st.cells| && st'.stale == st.stale && st'.need == st.need && st'.modulesVal == st.modulesVal
    && forall y: nat :: y < |st.cells| ==> st'.Of(y) == st.Of(y).(write := st'.Of(y).write)
  }

  lemma {:induction false} WriteMembersOnly(st: State, members: seq<nat>)
    ensures SameButWrite(st, WriteMembers(st, members))
    decreases |members|
  {
    if members != [] {
      var m := members[0];
      WriteMembersOnly(if Visible(st, m) then st.Put(m, st.Of(m).(write := true)) else st, members[1..]);
    }
  }

  /** The end of sym_calc_value for a symbol other than MODULES, with nothing waiting. */
  lemma FinishOnlyWrites(g: Graph, st: State, x: nat, before: Cell)
    requires x != g.modules && st.need == {}
    ensures SameButWrite(st, Finish(g, st, x, before))
  {
    WriteMembersOnly(st, g.Of(x).members);
  }

  lemma ChosenAfterWrites(g: Graph, st: State, st': State, c: nat, d: iset<nat>)
    requires Exclusive(g, c, d) && Chosen(g, st, c) && SameButWrite(st, st')
    ensures Chosen(g, st', c)
  {
    forall y: nat ensures SameRead(st, st', y) && st'.Of(y).visible == st.Of(y).visible {
      if y < |st.cells| { assert st'.Of(y) == st.Of(y).(write := st'.Of(y).write); }
    }
    if st.Of(c).tri == YES {
      forall m | m in g.Of(c).members ensures Shown(g, st', m) {
        assert MemberOk(g, c, m, d);
        ShownStays(g, st, st', c, m, d);
      }
    }
  }

  /** The choice's value is stored, and no chosen symbol yet. */
  lemma ChoiceStored(g: Graph, st: State, st1: State, c: nat, t: Tri, d: iset<nat>)
    requires Exclusive(g, c, d) && Ready(g, st, c) && c !in st.stale
    requires st1 == st || st1 == st.Put(c, st.Of(c).(write := true))
    ensures var st2 := st1.Put(c, st1.Of(c).(tri := t, val := Empty(g.Of(c).typ), chosen := NULL));
      && Fit(g, st2, c) && st2.Of(c).tri == t && st2.Of(c).userChosen == st.Of(c).userChosen
      && forall m :: m in g.Of(c).members ==> SameMember(st, st2, m) && st2.Of(m) == st.Of(m)
  {
    forall m | m in g.Of(c).members ensures m != c { assert MemberOk(g, c, m, d); }
    hide Exclusive;
  }

  /** The choice's own value, given what comes before it. */
  lemma ChoiceValue(g: Graph, st: State, c: nat, d: iset<nat>)
    requires Exclusive(g, c, d) && Ready(g, st, c) && c !in st.stale
    ensures var st' := NewValue(g, st, c); Chosen(g, st', c) && st'.need == {} && WellPicked(g, st', c)
    ensures forall m :: m in g.Of(c).members ==> SameMember(st, NewValue(g, st, c), m)
  {
    var i := g.Of(c);
    var (st1, t) := TruthValue(g, st, c);
    assert st1 == st || st1 == st.Put(c, st.Of(c).(write := true));
    hide CalcChoice, TruthValue;
    var st2 := st1.Put(c, st1.Of(c).(tri := t, val := Empty(i.typ), chosen := NULL));
    ChoiceStored(g, st, st1, c, t, d);
    if t == YES {
      hide Fit, Chosen, WellPicked;
      ChoiceValueYes(g, st2, c, d);
      forall m | m in i.members ensures SameMember(st, NewValue(g, st, c), m) {
        assert SameMember(st2, NewValue(g, st, c), m) && SameMember(st, st2, m);
      }
    }
  }

  /** The choice is y, and its member is looked for. */
  lemma ChoiceValueYes(g: Graph, st: State, c: nat, d: iset<nat>)
    requires Exclusive(g, c, d) && Fit(g, st, c) && st.Of(c).tri == YES
    requires st.Of(c).userChosen == NULL || (st.Of(c).userChosen >= 0 && st.Of(c).userChosen in g.Of(c).members)
    requires forall m :: m in g.Of(c).members ==> st.Of(m).revDep == NO && st.Of(m).implied == NO
    ensures var (st3, r) := CalcChoice(g, st, c);
      var st' := st3.Put(c, st3.Of(c).(chosen := r));
      && Chosen(g, st', c) && WellPicked(g, st', c) && st'.need == {}
      && forall m :: m in g.Of(c).members ==> SameMember(st, st', m)
  {
    hide Shown, AllShown, Picked, SamePreference, Decided, CalcChoice, Exclusive;
    ChoicePicks(g, st, c, d);
    var (st3, r) := CalcChoice(g, st, c);
    var cell := st3.Of(c).(chosen := r);
    PutChoice(g, st3, c, cell, d);
    AroundTwice(g, st, st3, st3.Put(c, cell), c);
    PutPreference(g, st3, c, cell, d);
    PickedSame(g, st3, st3.Put(c, cell), c, d);
    forall m | m in g.Of(c).members
      ensures st3.Put(c, cell).Of(m).revDep == NO && st3.Put(c, cell).Of(m).implied == NO
    {
      assert SameMember(st, st3.Put(c, cell), m);
    }
  }

  /** What comes before it leaves the members alone. */
  lemma ChoiceVisibility(g: Graph, st: State, c: nat, d: iset<nat>)
    requires Exclusive(g, c, d) && Ready(g, st, c) && c !in st.stale
    ensures var st' := Visibility(g, st, c);
      Ready(g, st', c) && c !in st'.stale && |st'.cells| == |st.cells|
      && forall m :: m in g.Of(c).members ==> SameMember(st, st', m)
  {
    var i := g.Of(c);
    forall p | p in i.prompts ensures Within(st, OptNumbers(p), d) { WithinSubset(st, OptNumbers(p), d); }
    VisibilityAround(g, st, c, d);
    var st' := Visibility(g, st, c);
    VisibilityKeepsUser(g, st, c, d);
    forall m | m in i.members ensures SameMember(st, st', m) {
      assert MemberOk(g, c, m, d) && Untouched(st, st', m);
    }
  }

  lemma VisibilityKeepsUser(g: Graph, st: State, c: nat, d: iset<nat>)
    requires Exclusive(g, c, d)
    ensures Visibility(g, st, c).Of(c).userChosen == st.Of(c).userChosen
  {
    hide Step, Within;
    var i := g.Of(c);
    forall p | p in i.prompts ensures Within(st, OptNumbers(p), d) { WithinSubset(st, OptNumbers(p), d); }
    PromptsSteps(g, st, c, 0, NO, d);
    var (st1, t) := Prompts(g, st, c, 0, NO);
    var visible := if t == MOD && (i.typ != Tristate || st1.modulesVal == NO) then YES else t;
    var st2 := st1.Put(c, st1.Of(c).(visible := visible));
    KeepsCell(g, st, st1, c, d);
    DependenciesKeepUser(g, st2, c, d);
  }

  lemma DependenciesKeepUser(g: Graph, st: State, c: nat, d: iset<nat>)
    requires Covered(g, st, d) && Closed(g, d) && c !in d && Inside(OptNumbers(g.Of(c).dirDep), d)
    requires Inside(OptNumbers(g.Of(c).revDep), d) && Inside(OptNumbers(g.Of(c).implied), d)
    ensures Dependencies(g, st, c).Of(c).userChosen == st.Of(c).userChosen
  {
    hide Step, Within;
    var i := g.Of(c);
    WithinSubset(st, OptNumbers(i.dirDep), d);
    OptSteps(g, st, i.dirDep, d);
    var (st3, v) := OptTri(g, st, i.dirDep);
    KeepsCell(g, st, st3, c, d);
    var st4 := st3.Put(c, st3.Of(c).(dirDep := Promoted(g, st3, c, v)));
    WithinSubset(st4, OptNumbers(i.revDep), d);
    if i.revDep.Some? {
      ExprSteps(g, st4, i.revDep.value, d);
      KeepsCell(g, st4, ExprTri(g, st4, i.revDep.value).0, c, d);
    }
    var (st5, r) := if i.revDep.Some? then ExprTri(g, st4, i.revDep.value) else (st4, NO);
    var st6 := st5.Put(c, st5.Of(c).(revDep := Promoted(g, st5, c, r)));
    WithinSubset(st6, OptNumbers(i.implied), d);
    if i.implied.Some? {
      ExprSteps(g, st6, i.implied.value, d);
      KeepsCell(g, st6, ExprTri(g, st6, i.implied.value).0, c, d);
    }
  }

  lemma KeepsCell(g: Graph, st: State, st': State, c: nat, d: iset<nat>)
    requires Step(g, st, st', d, NULL) && c !in d
    ensures st'.Of(c) == st.Of(c)
  {
    assert Untouched(st, st', c);
  }

  /** sym_calc_value of the choice. */
  lemma ChoiceCalculated(g: Graph, st: State, c: nat, d: iset<nat>)
    requires Exclusive(g, c, d) && Ready(g, st, c) && c in st.stale
    ensures var st' := Calc(g, st, c);
      && Chosen(g, st', c) && WellPicked(g, st', c)
      && forall m :: m in g.Of(c).members ==> SameMember(st, st', m)
  {
    hide Visibility, NewValue, Finish, Chosen, Calc, WellPicked;
    CalcTruth(g, st, c);
    var i, before := g.Of(c), st.Of(c);
    var st1 := st.(stale := st.stale - {c});
    var st2 := st1.Put(c, before.(write := false));
    forall m | m in i.members ensures SameMember(st, st2, m) { assert MemberOk(g, c, m, d); }
    ChoiceVisibility(g, st2, c, d);
    var st3 := Visibility(g, st2, c);
    var st4 := Emptied(g, st3, c);
    forall m | m in i.members ensures SameMember(st, st4, m) {
      assert MemberOk(g, c, m, d) && SameMember(st, st2, m) && SameMember(st2, st3, m);
    }
    ChoiceValue(g, st4, c, d);
    var st5 := NewValue(g, st4, c);
    FinishOnlyWrites(g, st5, c, before);
    var st6 := Finish(g, st5, c, before);
    ChosenAfterWrites(g, st5, st6, c, d);
    PickedAfterWrites(g, st5, st6, c, d);
    forall m | m in i.members ensures SameMember(st, st6, m) {
      assert SameMember(st, st4, m) && SameMember(st4, st5, m);
      SameWritten(st5, st6, m);
    }
  }

  lemma SameWritten(st: State, st': State, m: nat)
    requires SameButWrite(st, st')
    ensures SameMember(st, st', m)
  {}

  lemma MemberVisibility(g: Graph, st: State, st2: State, c: nat, m: nat, d: iset<nat>)
    requires MemberOk(g, c, m, d) && Shown(g, st, m) && m < |st.cells| && c !in st.stale
    requires g.modules in d && g.modules !in st.stale
    requires st2 == st.(stale := st.stale - {m}).Put(m, st.Of(m).(write := false))
    ensures Visibility(g, st2, m) == st2
  {
    ShownStays(g, st, st2, c, m, d);
    ValidPrompts(g, st2, m, 0, NO);
    assert st2.Put(m, st2.Of(m)).cells == st2.cells;
  }

  lemma MemberFinish(g: Graph, st: State, c: nat, m: nat, before: Cell, d: iset<nat>)
    requires MemberOk(g, c, m, d) && m < |st.cells| && g.modules in d && st.need == {}
    ensures var st' := Finish(g, st, m, before);
      && SameButWrite(st, st') && forall y: nat :: y != m ==> st'.Of(y) == st.Of(y)
  {
    FinishOnlyWrites(g, st, m, before);
  }

  // ----- asking for a member first -----

  /** The choice, its members and the symbols they depend on. */
  ghost function Group(g: Graph, c: nat, d: iset<nat>): iset<nat> {
    iset y: nat | y in d || y == c || y in g.Of(c).members
  }

  lemma GroupClosed(g: Graph, c: nat, d: iset<nat>)
    requires Exclusive(g, c, d)
    ensures Closed(g, Group(g, c, d)) && d <= Group(g, c, d) && g.modules in Group(g, c, d) && c in Group(g, c, d)
  {
    var all := Group(g, c, d);
    forall x | x in all ensures ClosedAt(g.Of(x), all) {
      if x in d {
        assert ClosedAt(g.Of(x), d);
      } else if x != c {
        assert MemberOk(g, c, x, d);
      }
    }
  }

  /** menu_finalize makes the choice part of the condition of a member's prompt (kconf/menu.c:334), which may
      have been simplified to n.
   */
  predicate Asks(p: Option<Expr>, c: nat) { p == Some(Sym(No)) || c in OptNumbers(p) }

  ghost predicate AllAsk(g: Graph, c: nat) {
    forall m, p :: m in g.Of(c).members && p in g.Of(m).prompts ==> Asks(p, c)
  }

  /** The choice has been calculated meanwhile. */
  ghost predicate Reached(g: Graph, st: State, st': State, c: nat, d: iset<nat>) {
    && Chosen(g, st', c) && WellPicked(g, st', c) && Step(g, st, st', Group(g, c, d), NULL)
    && forall m :: m in g.Of(c).members ==> SameMember(st, st', m)
  }

  lemma ChosenAfterStep(g: Graph, st: State, st': State, c: nat, d: iset<nat>)
    requires Exclusive(g, c, d) && Chosen(g, st, c) && WellPicked(g, st, c) && Step(g, st, st', d, NULL)
    ensures Chosen(g, st', c) && WellPicked(g, st', c) && st'.Of(c) == st.Of(c) && st'.stale <= st.stale
    ensures forall m :: m in g.Of(c).members ==> SameMember(st, st', m) && st'.Of(m) == st.Of(m)
  {
    AroundStep(g, st, st', c, d);
    forall m | m in g.Of(c).members ensures SameMember(st, st', m) && st'.Of(m) == st.Of(m) {
      assert MemberOk(g, c, m, d) && Untouched(st, st', m);
    }
    assert Untouched(st, st', c);
    if st.Of(c).tri == YES {
      forall y: nat | y in d && y !in st.stale ensures SameRead(st, st', y) { assert SameValue(st, st', y); }
      PickedSame(g, st, st', c, d);
    }
  }

  /** A call within d, after and before. */
  lemma ReachedStep(g: Graph, st: State, st1: State, st2: State, c: nat, d: iset<nat>)
    requires Exclusive(g, c, d) && Reached(g, st, st1, c, d) && Step(g, st1, st2, d, NULL)
    ensures Reached(g, st, st2, c, d)
  {
    hide Step, Chosen, WellPicked, Exclusive;
    ChosenAfterStep(g, st1, st2, c, d);
    GroupClosed(g, c, d);
    StepWider(g, st1, st2, d, Group(g, c, d), NULL);
    StepTwice(g, st, st1, st2, Group(g, c, d), NULL);
    forall m | m in g.Of(c).members ensures SameMember(st, st2, m) {
      assert SameMember(st, st1, m) && SameMember(st1, st2, m);
    }
  }

  lemma ReadyStep(g: Graph, st: State, st': State, c: nat, d: iset<nat>)
    requires Exclusive(g, c, d) && Ready(g, st, c) && Step(g, st, st', d, NULL)
    ensures Ready(g, st', c) && (c in st'.stale <==> c in st.stale) && st'.stale <= st.stale
    ensures forall m :: m in g.Of(c).members ==> SameMember(st, st', m) && st'.Of(m) == st.Of(m)
  {
    assert Untouched(st, st', c);
    forall m | m in g.Of(c).members ensures SameMember(st, st', m) && st'.Of(m) == st.Of(m) {
      assert MemberOk(g, c, m, d) && Untouched(st, st', m);
    }
  }

  lemma StepReached(g: Graph, st: State, st1: State, st2: State, c: nat, d: iset<nat>)
    requires Exclusive(g, c, d) && Ready(g, st, c) && Step(g, st, st1, d, NULL) && Reached(g, st1, st2, c, d)
    ensures Reached(g, st, st2, c, d)
  {
    hide Step, Chosen, WellPicked, Exclusive;
    ReadyStep(g, st, st1, c, d);
    GroupClosed(g, c, d);
    StepWider(g, st, st1, d, Group(g, c, d), NULL);
    StepTwice(g, st, st1, st2, Group(g, c, d), NULL);
    forall m | m in g.Of(c).members ensures SameMember(st, st2, m) {
      assert SameMember(st, st1, m) && SameMember(st1, st2, m);
    }
  }

  /** What an expression that is evaluated with the choice still to be calculated leaves. */
  ghost predicate Evaluated(g: Graph, st: State, st': State, ns: set<nat>, c: nat, d: iset<nat>) {
    Reached(g, st, st', c, d) && ValidIn(st', ns)
  }

  ghost predicate About(ns: set<nat>, c: nat, d: iset<nat>) { forall y :: y in ns ==> y in d || y == c }

  lemma SymReaches(g: Graph, st: State, s: Symbol, c: nat, d: iset<nat>)
    requires Exclusive(g, c, d) && Ready(g, st, c) && c in st.stale && SymNumbers(s) == {c}
    ensures Evaluated(g, st, CalcSym(g, st, s), {c}, c, d)
  {
    assert s.Config? && s.id in SymNumbers(s);
    ChoiceCalculated(g, st, c, d);
    GroupClosed(g, c, d);
    CalcSteps(g, st, c, Group(g, c, d));
  }

  lemma NumbersOfSym(s: Symbol, c: nat)
    requires c in SymNumbers(s)
    ensures SymNumbers(s) == {c}
  {}

  /** Evaluating a condition that mentions the choice calculates the choice. */
  lemma {:induction false} ExprReaches(g: Graph, st: State, e: Expr, c: nat, d: iset<nat>)
    requires Exclusive(g, c, d) && Ready(g, st, c) && c in st.stale && c in Numbers(e) && About(Numbers(e), c, d)
    ensures var (st', v) := ExprTri(g, st, e);
      Evaluated(g, st, st', Numbers(e), c, d) && v == Value(e, EnvOf(g, st'))
    decreases Size(e)
  {
    hide Exclusive, Ready, Evaluated, Relate;
    match e
    case Sym(s) =>
      NumbersOfSym(s, c);
      SymReaches(g, st, s, c, d);
    case Not(a) => ExprReaches(g, st, a, c, d);
    case And(l, r) => BothReach(g, st, l, r, c, d);
    case Or(l, r) => BothReach(g, st, l, r, c, d);
    case Cmp(op, l, r) => CmpReaches(g, st, op, l, r, c, d);
  }

  lemma {:induction false} BothReach(g: Graph, st: State, l: Expr, r: Expr, c: nat, d: iset<nat>)
    requires Exclusive(g, c, d) && Ready(g, st, c) && c in st.stale
    requires c in Numbers(l) + Numbers(r) && About(Numbers(l) + Numbers(r), c, d)
    ensures var (st1, v1) := ExprTri(g, st, l);
      var (st2, v2) := ExprTri(g, st1, r);
      && Evaluated(g, st, st2, Numbers(l) + Numbers(r), c, d)
      && v1 == Value(l, EnvOf(g, st2)) && v2 == Value(r, EnvOf(g, st2))
    decreases Size(l) + Size(r)
  {
    var st1 := ExprTri(g, st, l).0;
    if c in Numbers(l) {
      ExprReaches(g, st, l, c, d);
      FirstReached(g, st, st1, l, r, c, d);
    } else {
      FirstValid(g, st, l, c, d);
      ExprReaches(g, st1, r, c, d);
      SecondReached(g, st, st1, l, r, c, d);
    }
  }

  /** The first operand does not mention the choice. */
  lemma FirstValid(g: Graph, st: State, l: Expr, c: nat, d: iset<nat>)
    requires Exclusive(g, c, d) && Ready(g, st, c) && c in st.stale && c !in Numbers(l) && About(Numbers(l), c, d)
    ensures var (st1, v1) := ExprTri(g, st, l);
      && Step(g, st, st1, d, NULL) && Ready(g, st1, c) && c in st1.stale
      && ValidIn(st1, Numbers(l)) && v1 == Value(l, EnvOf(g, st1))
  {
    ExprValidates(g, st, l, d);
    ReadyStep(g, st, ExprTri(g, st, l).0, c, d);
  }

  lemma SecondReached(g: Graph, st: State, st1: State, l: Expr, r: Expr, c: nat, d: iset<nat>)
    requires Exclusive(g, c, d) && Ready(g, st, c) && Step(g, st, st1, d, NULL) && Ready(g, st1, c)
    requires ValidIn(st1, Numbers(l)) && Evaluated(g, st1, ExprTri(g, st1, r).0, Numbers(r), c, d)
    ensures var st2 := ExprTri(g, st1, r).0;
      && Evaluated(g, st, st2, Numbers(l) + Numbers(r), c, d) && Value(l, EnvOf(g, st2)) == Value(l, EnvOf(g, st1))
  {
    hide Exclusive, Chosen, WellPicked, SameRead;
    var st2 := ExprTri(g, st1, r).0;
    StepReached(g, st, st1, st2, c, d);
    StaysValid(g, st1, st2, Numbers(l), Group(g, c, d));
    ValueAgrees(g, st1, st2, l);
  }

  lemma FirstReached(g: Graph, st: State, st1: State, l: Expr, r: Expr, c: nat, d: iset<nat>)
    requires Exclusive(g, c, d) && Evaluated(g, st, st1, Numbers(l), c, d) && About(Numbers(r), c, d)
    ensures var (st2, v2) := ExprTri(g, st1, r);
      && Evaluated(g, st, st2, Numbers(l) + Numbers(r), c, d)
      && Value(l, EnvOf(g, st2)) == Value(l, EnvOf(g, st1)) && v2 == Value(r, EnvOf(g, st2))
  {
    ChosenFit(g, st1, c);
    var st2 := ExprTri(g, st1, r).0;
    ExprValidates(g, st1, r, d);
    hide Step, Chosen, WellPicked, SameRead;
    ReachedStep(g, st, st1, st2, c, d);
    StaysValid(g, st1, st2, Numbers(l), d);
    ValueAgrees(g, st1, st2, l);
  }

  lemma ChosenFit(g: Graph, st: State, c: nat)
    requires Chosen(g, st, c)
    ensures st.need == {} && g.modules !in st.stale && c !in st.stale
  {}

  lemma CmpReaches(g: Graph, st: State, op: CmpOp, l: Symbol, r: Symbol, c: nat, d: iset<nat>)
    requires Exclusive(g, c, d) && Ready(g, st, c) && c in st.stale
    requires c in SymNumbers(l) + SymNumbers(r) && About(SymNumbers(l) + SymNumbers(r), c, d)
    ensures var (st', v) := ExprTri(g, st, Cmp(op, l, r));
      && Evaluated(g, st, st', SymNumbers(l) + SymNumbers(r), c, d) && v == Value(Cmp(op, l, r), EnvOf(g, st'))
  {
    var a, b, st1 := Sym(l), Sym(r), CalcSym(g, st, l);
    var st2 := CalcSym(g, st1, r);
    SymTri(g, st, l);
    SymTri(g, st1, r);
    hide Exclusive, Ready, Evaluated, EnvOf, Value, ExprTri, CalcSym, About;
    SplitAbout(SymNumbers(l), SymNumbers(r), c, d);
    if c in SymNumbers(l) {
      NumbersOfSym(l, c);
      SymReaches(g, st, l, c, d);
      FirstReached(g, st, st1, a, b, c, d);
    } else {
      FirstValid(g, st, a, c, d);
      NumbersOfSym(r, c);
      SymReaches(g, st1, r, c, d);
      SecondReached(g, st, st1, a, b, c, d);
    }
    EvaluatedFit(g, st, st2, SymNumbers(l) + SymNumbers(r), c, d);
    CmpTri(g, st, op, l, r);
  }

  lemma SymTri(g: Graph, st: State, s: Symbol)
    ensures ExprTri(g, st, Sym(s)).0 == CalcSym(g, st, s) && Numbers(Sym(s)) == SymNumbers(s)
  {}

  lemma SplitAbout(ns: set<nat>, ms: set<nat>, c: nat, d: iset<nat>)
    requires About(ns + ms, c, d)
    ensures About(ns, c, d) && About(ms, c, d)
  {}

  lemma EvaluatedFit(g: Graph, st: State, st': State, ns: set<nat>, c: nat, d: iset<nat>)
    requires Evaluated(g, st, st', ns, c, d)
    ensures g.modules !in st'.stale
  {}

  // ----- the value of a member -----

  /** None of the prompts from number k on shows the member. */
  ghost predicate Hidden(g: Graph, m: nat, k: nat) {
    forall j :: k <= j < |g.Of(m).prompts| ==> g.Of(m).prompts[j] == Some(Sym(No))
  }

  lemma {:induction false} HiddenPrompts(g: Graph, st: State, m: nat, k: nat, t: Tri)
    requires k <= |g.Of(m).prompts| && Hidden(g, m, k)
    ensures Prompts(g, st, m, k, t) == (st, t) && PromptsTri(g, st, m, k, t) == t
    decreases |g.Of(m).prompts| - k
  {
    if k < |g.Of(m).prompts| {
      NoPrompt(g, st, m, t);
      HiddenPrompts(g, st, m, k + 1, t);
    }
  }

  /** A prompt that is n adds nothing. */
  lemma NoPrompt(g: Graph, st: State, m: nat, t: Tri)
    ensures OptTri(g, st, Some(Sym(No))) == (st, NO) && ValueOpt(Some(Sym(No)), EnvOf(g, st)) == NO
    ensures Max(t, Unhidden(g, st, m, NO)) == t && OptNumbers(Some(Sym(No))) == {}
  {
    assert ExprTri(g, st, Sym(No)) == (CalcSym(g, st, No), NO);
  }

  lemma PromptAbout(g: Graph, c: nat, m: nat, k: nat, d: iset<nat>)
    requires MemberOk(g, c, m, d) && k < |g.Of(m).prompts|
    ensures About(OptNumbers(g.Of(m).prompts[k]), c, d)
  {
    assert g.Of(m).prompts[k] in g.Of(m).prompts;
  }

  lemma HiddenFrom(g: Graph, m: nat, k: nat)
    requires k < |g.Of(m).prompts| && g.Of(m).prompts[k] == Some(Sym(No)) && !Hidden(g, m, k)
    ensures !Hidden(g, m, k + 1)
  {}

  lemma ValidFrom(g: Graph, st: State, m: nat, k: nat)
    requires k < |g.Of(m).prompts| && OptNumbers(g.Of(m).prompts[k]) == {} && PromptsValid(g, st, m, k + 1)
    ensures PromptsValid(g, st, m, k)
  {}

  /** The first prompt of a member that is not n calculates the choice; the rest follow. */
  lemma {:induction false} PromptsReach(g: Graph, st: State, c: nat, m: nat, k: nat, t: Tri, d: iset<nat>)
    requires Exclusive(g, c, d) && Ready(g, st, c) && c in st.stale && AllAsk(g, c)
    requires m in g.Of(c).members && k <= |g.Of(m).prompts| && !Hidden(g, m, k)
    ensures var (st', v) := Prompts(g, st, m, k, t);
      Reached(g, st, st', c, d) && PromptsValid(g, st', m, k) && v == PromptsTri(g, st', m, k, t)
    decreases |g.Of(m).prompts| - k
  {
    var p := g.Of(m).prompts[k];
    assert MemberOk(g, c, m, d) && p in g.Of(m).prompts && Asks(p, c);
    hide Reached, EnvOf, Ready;
    if p == Some(Sym(No)) {
      HiddenFrom(g, m, k);
      NoPrompt(g, st, m, t);
      PromptsReach(g, st, c, m, k + 1, t, d);
      NoPrompt(g, Prompts(g, st, m, k, t).0, m, t);
      ValidFrom(g, Prompts(g, st, m, k, t).0, m, k);
    } else {
      PromptAbout(g, c, m, k, d);
      ExprReaches(g, st, p.value, c, d);
      PromptsFollow(g, st, c, m, k, t, d);
    }
  }

  lemma PromptsFollow(g: Graph, st: State, c: nat, m: nat, k: nat, t: Tri, d: iset<nat>)
    requires Exclusive(g, c, d) && Ready(g, st, c) && m in g.Of(c).members && k < |g.Of(m).prompts|
    requires var p := g.Of(m).prompts[k];
      var (st1, v) := OptTri(g, st, p);
      p.Some? && Evaluated(g, st, st1, OptNumbers(p), c, d) && v == ValueOpt(p, EnvOf(g, st1))
    ensures var (st', v) := Prompts(g, st, m, k, t);
      Reached(g, st, st', c, d) && PromptsValid(g, st', m, k) && v == PromptsTri(g, st', m, k, t)
  {
    var p := g.Of(m).prompts[k];
    var (st1, v) := OptTri(g, st, p);
    assert MemberOk(g, c, m, d);
    ChosenFit(g, st1, c);
    MemberReads(g, st1, c, m, d);
    var t1 := Max(t, Unhidden(g, st1, m, v));
    PromptsValidate(g, st1, m, k + 1, t1, d);
    PromptsSteps(g, st1, m, k + 1, t1, d);
    var st2 := Prompts(g, st1, m, k + 1, t1).0;
    hide Step, Chosen, WellPicked, SameRead, EnvOf, ValueOpt, OptTri, Unhidden, Exclusive;
    ReachedStep(g, st, st1, st2, c, d);
    StaysValid(g, st1, st2, OptNumbers(p), d);
    OptAgrees(g, st1, st2, p);
    ChoiceStays(g, st1, st2, m, d);
  }

  /** Only the member's own value changes. */
  ghost predicate OnlyMember(st: State, st': State, m: nat) {
    && |st'.cells| == |st.cells| && st'.need == st.need && st'.modulesVal == st.modulesVal
    && st'.stale <= st.stale && (forall y :: y in st.stale && y != m ==> y in st'.stale)
    && (forall y: nat :: y != m ==> st'.Of(y) == st.Of(y))
    && st'.Of(m).visible == st.Of(m).visible && st'.Of(m).revDep == st.Of(m).revDep
    && st'.Of(m).implied == st.Of(m).implied
  }

  /** What follows the visibility of a member. */
  function Rest(g: Graph, st: State, m: nat, before: Cell): State {
    Finish(g, NewValue(g, Emptied(g, st, m), m), m, before)
  }

  /** Its value is y if it is the chosen one, and n otherwise, unless it is visible as m. */
  lemma MemberRest(g: Graph, st: State, c: nat, m: nat, before: Cell, d: iset<nat>)
    requires MemberOk(g, c, m, d) && g.modules in d && m < |st.cells| && st.need == {}
    requires st.Of(m).revDep == NO && st.Of(m).implied == NO
    ensures var st' := Rest(g, st, m, before);
      && OnlyMember(st, st', m)
      && (st.Of(m).visible != MOD ==>
        st'.Of(m).tri == if st.Of(m).visible == YES && st.Of(c).chosen == m then YES else NO)
  {
    var st4 := Emptied(g, st, m);
    assert DefaultTri(g, st4, m) == (st4, NO) by { assert DefaultProp(g, st4, m, 0) == (st4, None, NO); }
    var t := TruthValue(g, st4, m).1;
    assert TruthValue(g, st4, m).0 == st4;
    var st5 := NewValue(g, st4, m);
    assert st5 == st4.Put(m, st4.Of(m).(tri := t, val := Empty(g.Of(m).typ), chosen := NULL));
    hide TruthValue, NewValue;
    FinishOnlyWrites(g, st5, m, before);
    var st6 := Finish(g, st5, m, before);
    forall y: nat | y != m ensures st6.Of(y) == st.Of(y) {
      if y < |st.cells| { assert st6.Of(y) == st5.Of(y).(write := st6.Of(y).write); }
      MemberFinish(g, st5, c, m, before, d);
    }
  }

  /** The choice does not see it. */
  lemma ChosenAfterMember(g: Graph, st: State, st': State, c: nat, m: nat, d: iset<nat>)
    requires Exclusive(g, c, d) && Chosen(g, st, c) && WellPicked(g, st, c) && m in g.Of(c).members
    requires OnlyMember(st, st', m)
    ensures Chosen(g, st', c) && WellPicked(g, st', c)
  {
    assert MemberOk(g, c, m, d);
    if st.Of(c).tri == YES {
      forall o | o in g.Of(c).members ensures Shown(g, st', o) {
        assert MemberOk(g, c, o, d) && Shown(g, st, o);
        ShownStays(g, st, st', c, o, d);
      }
      PickedSame(g, st, st', c, d);
    }
  }

  /** What has been calculated of the members is right. */
  ghost predicate MembersRight(g: Graph, st: State, c: nat) {
    forall m :: m in g.Of(c).members && m !in st.stale ==> (st.Of(m).tri == if st.Of(c).chosen == m then YES else NO)
  }

  /** The choice is not calculated yet, and of the members only those without a prompt may be. */
  ghost predicate Waiting(g: Graph, st: State, c: nat) {
    && Ready(g, st, c) && c in st.stale
    && forall m :: m in g.Of(c).members && m !in st.stale ==> Hidden(g, m, 0) && st.Of(m).tri == NO
  }

  /** The choice is calculated, and if it is y, what has been calculated of the members is right. */
  ghost predicate Running(g: Graph, st: State, c: nat) {
    Chosen(g, st, c) && WellPicked(g, st, c) && (st.Of(c).tri == YES ==> MembersRight(g, st, c))
  }

  /** What sym_calc_value has done before the visibility of a stale member is calculated. */
  function Begun(st: State, m: nat): State { st.(stale := st.stale - {m}).Put(m, st.Of(m).(write := false)) }

  lemma MemberBegun(g: Graph, st: State, c: nat, m: nat, d: iset<nat>)
    requires Exclusive(g, c, d) && m in g.Of(c).members && m in st.stale && st.need == {} && m < |st.cells|
    ensures OnlyMember(st, Begun(st, m), m) && m !in Begun(st, m).stale
    ensures Calc(g, st, m) == Rest(g, Visibility(g, Begun(st, m), m), m, st.Of(m))
  {
    assert MemberOk(g, c, m, d);
    hide Visibility, NewValue, Finish, Emptied, Calc;
    CalcTruth(g, st, m);
  }

  /** Showing a member as the values have it leaves a calculated choice alone. */
  lemma ChosenAfterShown(g: Graph, st: State, c: nat, m: nat, d: iset<nat>)
    requires Exclusive(g, c, d) && Chosen(g, st, c) && WellPicked(g, st, c) && m in g.Of(c).members
    ensures var st' := st.Put(m, st.Of(m).(visible := VisibleTri(g, st, m)));
      Chosen(g, st', c) && WellPicked(g, st', c) && st'.Of(c) == st.Of(c)
  {
    assert MemberOk(g, c, m, d);
    var st' := st.Put(m, st.Of(m).(visible := VisibleTri(g, st, m)));
    if st.Of(c).tri == YES {
      assert Shown(g, st, m);
      assert st'.cells == st.cells;
    }
  }

  /** A member is asked for before its choice, has a prompt, and so has the choice calculated first. */
  lemma MemberForcesChoice(g: Graph, st: State, c: nat, m: nat, d: iset<nat>)
    requires Exclusive(g, c, d) && Waiting(g, st, c) && AllAsk(g, c)
    requires m in g.Of(c).members && m in st.stale && !Hidden(g, m, 0)
    ensures Running(g, Calc(g, st, m), c) && m !in Calc(g, st, m).stale
  {
    assert MemberOk(g, c, m, d);
    MemberBegun(g, st, c, m, d);
    var st2 := Begun(st, m);
    PromptsReach(g, st2, c, m, 0, NO, d);
    var (st3, v) := Prompts(g, st2, m, 0, NO);
    assert Visibility(g, st2, m) == st3.Put(m, st3.Of(m).(visible := VisibleTri(g, st3, m)));
    hide Visibility, Rest, Calc, Exclusive, Chosen, WellPicked, Prompts, PromptsTri, VisibleTri, Step, AllAsk, Hidden;
    ForcedRest(g, st, st3, c, m, d);
  }

  /** The prompts of the member have had the choice calculated. */
  lemma ForcedRest(g: Graph, st: State, st3: State, c: nat, m: nat, d: iset<nat>)
    requires Exclusive(g, c, d) && Waiting(g, st, c) && m in g.Of(c).members && m in st.stale
    requires Reached(g, Begun(st, m), st3, c, d)
    ensures var st4 := st3.Put(m, st3.Of(m).(visible := VisibleTri(g, st3, m)));
            var st' := Rest(g, st4, m, st.Of(m));
            Running(g, st', c) && m !in st'.stale
  {
    assert MemberOk(g, c, m, d);
    var st2 := Begun(st, m);
    var st4 := st3.Put(m, st3.Of(m).(visible := VisibleTri(g, st3, m)));
    hide Rest, Exclusive, Chosen, WellPicked, VisibleTri, Step, Hidden;
    ChosenAfterShown(g, st3, c, m, d);
    forall o | o in g.Of(c).members
      ensures (o !in st4.stale <==> o !in st2.stale) && st4.Of(o).revDep == NO && st4.Of(o).implied == NO
      ensures o != m ==> st4.Of(o).tri == st.Of(o).tri
    {
      assert SameMember(st2, st3, o);
    }
    MemberAfterChoice(g, st, st4, c, m, d);
  }

  /** The members valid before are those that are never shown. */
  lemma MemberAfterChoice(g: Graph, st: State, st4: State, c: nat, m: nat, d: iset<nat>)
    requires Exclusive(g, c, d) && Waiting(g, st, c) && m in g.Of(c).members && m in st.stale
    requires Chosen(g, st4, c) && WellPicked(g, st4, c) && st4.Of(m).revDep == NO && st4.Of(m).implied == NO
    requires forall o :: o in g.Of(c).members ==> (o !in st4.stale <==> o !in st.stale || o == m)
    requires forall o :: o in g.Of(c).members && o != m ==> st4.Of(o).tri == st.Of(o).tri
    ensures var st' := Rest(g, st4, m, st.Of(m)); Running(g, st', c) && m !in st'.stale
  {
    var st' := Rest(g, st4, m, st.Of(m));
    assert MemberOk(g, c, m, d) && g.modules in d && m < |st4.cells| && st4.need == {};
    hide Rest, WellPicked, Exclusive, Hidden;
    MemberRest(g, st4, c, m, st.Of(m), d);
    ChosenAfterMember(g, st4, st', c, m, d);
    if st4.Of(c).tri == YES { FirstMemberRight(g, st4, st', c, m, d); }
  }

  lemma FirstMemberRight(g: Graph, st: State, st': State, c: nat, m: nat, d: iset<nat>)
    requires MemberOk(g, c, m, d) && Chosen(g, st, c) && st.Of(c).tri == YES && m in g.Of(c).members
    requires OnlyMember(st, st', m)
    requires st.Of(m).visible != MOD ==>
      st'.Of(m).tri == if st.Of(m).visible == YES && st.Of(c).chosen == m then YES else NO
    requires forall o :: o in g.Of(c).members && o !in st.stale && o != m ==> Hidden(g, o, 0) && st.Of(o).tri == NO
    ensures MembersRight(g, st', c)
  {
    hide Shown, Hidden;
    assert Shown(g, st, m);
    ShownBinary(g, st, c, m, d);
    forall o | o in g.Of(c).members && o != m && o !in st.stale ensures o != st.Of(c).chosen {
      assert Shown(g, st, o);
      HiddenShown(g, st, o);
    }
  }

  /** A member that is never shown does not ask for the choice. */
  lemma HiddenMember(g: Graph, st: State, c: nat, m: nat, d: iset<nat>)
    requires Exclusive(g, c, d) && Waiting(g, st, c) && m in g.Of(c).members && m in st.stale && Hidden(g, m, 0)
    ensures Waiting(g, Calc(g, st, m), c) && m !in Calc(g, st, m).stale
  {
    assert MemberOk(g, c, m, d);
    MemberBegun(g, st, c, m, d);
    var st2 := Begun(st, m);
    HiddenPrompts(g, st2, m, 0, NO);
    assert Visibility(g, st2, m) == st2.Put(m, st2.Of(m).(visible := NO));
    HiddenRest(g, st, c, m, d);
  }

  lemma HiddenRest(g: Graph, st: State, c: nat, m: nat, d: iset<nat>)
    requires Exclusive(g, c, d) && Waiting(g, st, c) && m in g.Of(c).members && m in st.stale && Hidden(g, m, 0)
    ensures var st2 := Begun(st, m);
            var st' := Rest(g, st2.Put(m, st2.Of(m).(visible := NO)), m, st.Of(m));
            Waiting(g, st', c) && m !in st'.stale
  {
    assert MemberOk(g, c, m, d) && g.modules in d;
    var st2 := Begun(st, m);
    var st4 := st2.Put(m, st2.Of(m).(visible := NO));
    hide Rest, Exclusive, Hidden, MemberOk;
    MemberRest(g, st4, c, m, st.Of(m), d);
    WaitingStill(g, st, Rest(g, st4, m, st.Of(m)), c, m, d);
  }

  lemma WaitingStill(g: Graph, st: State, st': State, c: nat, m: nat, d: iset<nat>)
    requires MemberOk(g, c, m, d) && Waiting(g, st, c) && g.modules in d && m in st.stale && Hidden(g, m, 0)
    requires OnlyMember(Begun(st, m).Put(m, Begun(st, m).Of(m).(visible := NO)), st', m) && st'.Of(m).tri == NO
    ensures Waiting(g, st', c) && m !in st'.stale
  {
    forall o | o in g.Of(c).members && o !in st'.stale ensures Hidden(g, o, 0) && st'.Of(o).tri == NO {
      if o != m { assert o !in st.stale; }
    }
  }

  /** A member under a choice that is y: only its own value is calculated, y if it is the chosen symbol. */
  lemma MemberCalculated(g: Graph, st: State, c: nat, m: nat, d: iset<nat>)
    requires Exclusive(g, c, d) && Chosen(g, st, c) && st.Of(c).tri == YES && m in g.Of(c).members && m in st.stale
    ensures var st' := Calc(g, st, m);
      OnlyMember(st, st', m) && m !in st'.stale && st'.Of(m).tri == (if st.Of(c).chosen == m then YES else NO)
  {
    hide Shown, Visibility, NewValue, Finish, Calc;
    assert MemberOk(g, c, m, d) && Shown(g, st, m);
    MemberBegun(g, st, c, m, d);
    ShownBinary(g, st, c, m, d);
    MemberVisibility(g, st, Begun(st, m), c, m, d);
    MemberRest(g, Begun(st, m), c, m, st.Of(m), d);
  }

  /** The visibility of a member, when the choice is calculated. */
  lemma MemberVisible(g: Graph, st: State, c: nat, m: nat, d: iset<nat>)
    requires Exclusive(g, c, d) && Fit(g, st, c) && m in g.Of(c).members
    ensures var st' := Visibility(g, st, m);
      && Fit(g, st', c) && st'.Of(c) == st.Of(c) && st'.stale <= st.stale
      && forall o :: o in g.Of(c).members ==> SameMember(st, st', o)
  {
    assert MemberOk(g, c, m, d);
    MemberShown(g, st, c, m, d);
    hide Visibility, Shown, Closed, MemberOk;
    OthersShown(g, st, Visibility(g, st, m), c, m, d);
  }

  /** Under a choice that is not y the choice stays what it is. */
  lemma MemberElsewhere(g: Graph, st: State, c: nat, m: nat, d: iset<nat>)
    requires Exclusive(g, c, d) && Chosen(g, st, c) && WellPicked(g, st, c) && st.Of(c).tri != YES
    requires m in g.Of(c).members && m in st.stale
    ensures var st' := Calc(g, st, m);
      Chosen(g, st', c) && WellPicked(g, st', c) && st'.Of(c).tri != YES && m !in st'.stale && st'.stale <= st.stale
  {
    assert MemberOk(g, c, m, d);
    MemberBegun(g, st, c, m, d);
    var st2 := Begun(st, m);
    hide Visibility, Rest, Calc, Shown, Begun;
    MemberVisible(g, st2, c, m, d);
    var st4 := Visibility(g, st2, m);
    assert SameMember(st2, st4, m);
    MemberRest(g, st4, c, m, st.Of(m), d);
    forall o | o in g.Of(c).members ensures Calc(g, st, m).Of(o).revDep == NO && Calc(g, st, m).Of(o).implied == NO {
      assert SameMember(st2, st4, o);
    }
  }

  // ----- all members -----

  /** One more call. */
  lemma OneMore(g: Graph, st: State, c: nat, x: nat, d: iset<nat>)
    requires Exclusive(g, c, d) && AllAsk(g, c) && (Waiting(g, st, c) || Running(g, st, c))
    requires x in g.Of(c).members || x in d || x == c
    ensures var st' := Calc(g, st, x);
      (Waiting(g, st', c) || Running(g, st', c)) && x !in st'.stale && st'.stale <= st.stale
  {
    if x in st.stale {
      GroupClosed(g, c, d);
      CalcSteps(g, st, x, Group(g, c, d));
      hide Waiting, Running;
      if x in d {
        OneMoreOther(g, st, c, x, d);
      } else if x == c {
        OneMoreChoice(g, st, c, d);
      } else {
        OneMoreMember(g, st, c, x, d);
      }
    }
  }

  lemma OneMoreOther(g: Graph, st: State, c: nat, x: nat, d: iset<nat>)
    requires Exclusive(g, c, d) && (Waiting(g, st, c) || Running(g, st, c)) && x in d && x in st.stale
    ensures var st' := Calc(g, st, x); (Waiting(g, st', c) || Running(g, st', c)) && x !in st'.stale
  {
    CalcSteps(g, st, x, d);
    CalcValidates(g, st, x, d);
    hide Step, Chosen, WellPicked;
    if Waiting(g, st, c) {
      ReadyStep(g, st, Calc(g, st, x), c, d);
    } else {
      ChosenAfterStep(g, st, Calc(g, st, x), c, d);
    }
  }

  lemma OneMoreChoice(g: Graph, st: State, c: nat, d: iset<nat>)
    requires Exclusive(g, c, d) && (Waiting(g, st, c) || Running(g, st, c)) && c in st.stale
    ensures Running(g, Calc(g, st, c), c) && c !in Calc(g, st, c).stale
  {
    if Running(g, st, c) { ChosenFit(g, st, c); }
    ChoiceCalculated(g, st, c, d);
    var st' := Calc(g, st, c);
    hide Calc, WellPicked, Ready, Exclusive;
    forall o | o in g.Of(c).members && o !in st'.stale ensures Hidden(g, o, 0) && st'.Of(o).tri == NO {
      assert SameMember(st, st', o);
    }
    HiddenRight(g, st', c);
  }

  /** Members that are never shown are not chosen. */
  lemma HiddenRight(g: Graph, st: State, c: nat)
    requires Chosen(g, st, c)
    requires forall m :: m in g.Of(c).members && m !in st.stale ==> Hidden(g, m, 0) && st.Of(m).tri == NO
    ensures c !in st.stale && (st.Of(c).tri == YES ==> MembersRight(g, st, c))
  {
    hide Shown, Hidden;
    if st.Of(c).tri == YES {
      forall m | m in g.Of(c).members && m !in st.stale ensures m != st.Of(c).chosen {
        assert Shown(g, st, m);
        HiddenShown(g, st, m);
      }
    }
  }

  lemma HiddenShown(g: Graph, st: State, m: nat)
    requires Shown(g, st, m) && Hidden(g, m, 0)
    ensures st.Of(m).visible == NO
  {
    HiddenPrompts(g, st, m, 0, NO);
  }

  lemma OneMoreMember(g: Graph, st: State, c: nat, m: nat, d: iset<nat>)
    requires Exclusive(g, c, d) && AllAsk(g, c) && (Waiting(g, st, c) || Running(g, st, c))
    requires m in g.Of(c).members && m in st.stale
    ensures var st' := Calc(g, st, m); (Waiting(g, st', c) || Running(g, st', c)) && m !in st'.stale
  {
    if Waiting(g, st, c) {
      if Hidden(g, m, 0) { HiddenMember(g, st, c, m, d); } else { MemberForcesChoice(g, st, c, m, d); }
    } else if st.Of(c).tri == YES {
      MemberCalculated(g, st, c, m, d);
      ChosenAfterMember(g, st, Calc(g, st, m), c, m, d);
      assert MemberOk(g, c, m, d);
    } else {
      MemberElsewhere(g, st, c, m, d);
    }
  }

  /** What lasts: the choice is calculated in the end, with the members right. */
  ghost function Exclusivity(g: Graph, c: nat): State -> bool {
    (st: State) => Waiting(g, st, c) || Running(g, st, c)
  }

  lemma ChosenOutside(g: Graph, st: State, st': State, c: nat, d: iset<nat>)
    requires Exclusive(g, c, d) && Running(g, st, c) && Outside(g, st, st', Group(g, c, d), false)
    ensures Running(g, st', c)
  {
    assert Untouched(st, st', c) && c !in st.stale && c < |st.cells|;
    forall m | m in g.Of(c).members ensures st'.Of(m) == st.Of(m) && (m in st'.stale <==> m in st.stale) {
      assert Untouched(st, st', m);
    }
    if st.Of(c).tri == YES {
      forall y: nat | y in d && y !in st.stale ensures SameRead(st, st', y) { assert Untouched(st, st', y); }
      forall m | m in g.Of(c).members ensures Shown(g, st', m) {
        assert MemberOk(g, c, m, d) && Shown(g, st, m);
        ShownStays(g, st, st', c, m, d);
      }
      PickedSame(g, st, st', c, d);
    }
  }

  lemma WaitingOutside(g: Graph, st: State, st': State, c: nat, d: iset<nat>)
    requires Exclusive(g, c, d) && Waiting(g, st, c) && Outside(g, st, st', Group(g, c, d), false)
    ensures Waiting(g, st', c)
  {
    assert Untouched(st, st', c);
    forall m | m in g.Of(c).members ensures st'.Of(m) == st.Of(m) && (m in st'.stale <==> m in st.stale) {
      assert Untouched(st, st', m);
    }
  }

  lemma ExclusivityLasts(g: Graph, c: nat, d: iset<nat>)
    requires Exclusive(g, c, d) && AllAsk(g, c)
    ensures Closed(g, Group(g, c, d)) && Lasting(g, Group(g, c, d), false, Exclusivity(g, c))
  {
    var p, e := Exclusivity(g, c), Group(g, c, d);
    GroupClosed(g, c, d);
    hide Waiting, Running, Exclusive, AllAsk, Calc;
    forall st: State, y: nat | Steady(g, st) && p(st) && y in e ensures p(Calc(g, st, y)) { OneMore(g, st, c, y, d); }
    forall st: State, st': State | p(st) && Outside(g, st, st', e, false) ensures p(st') {
      if Waiting(g, st, c) { WaitingOutside(g, st, st', c, d); } else { ChosenOutside(g, st, st', c, d); }
    }
  }

  /** Calls for any symbols, the choice and its members or others, keep the members calculated so far right. */
  lemma EachKeeps(g: Graph, st: State, c: nat, xs: seq<nat>, d: iset<nat>)
    requires Exclusive(g, c, d) && AllAsk(g, c) && OwnMembers(g) && (Waiting(g, st, c) || Running(g, st, c))
    ensures var st' := CalcEach(g, st, xs);
      (Waiting(g, st', c) || Running(g, st', c)) && st'.stale <= st.stale && forall x :: x in xs ==> x !in st'.stale
  {
    WaitingSteady(g, st, c);
    ExclusivityLasts(g, c, d);
    hide Waiting, Running, Exclusive, AllAsk, OwnMembers, Lasting, Closed, Group;
    EachHolds(g, st, xs, Group(g, c, d), false, Exclusivity(g, c));
  }

  lemma WaitingSteady(g: Graph, st: State, c: nat)
    requires Waiting(g, st, c) || Running(g, st, c)
    ensures Steady(g, st)
  {
    if Running(g, st, c) { ChosenFit(g, st, c); }
  }

  /** Exactly one member is y, a visible one and the one to pick. */
  ghost predicate OneChosen(g: Graph, st: State, c: nat) {
    exists k ::
      && k in g.Of(c).members && k == st.Of(c).chosen == Picked(g, st, c) && st.Of(k).visible == YES
      && forall m :: m in g.Of(c).members ==> m !in st.stale && (st.Of(m).tri == if m == k then YES else NO)
  }

  /** When symbols are asked for in any order, all members of a choice among them: if the choice comes out as y,
      exactly one member is y.
   */
  lemma ExactlyOneMember(g: Graph, st: State, c: nat, xs: seq<nat>, d: iset<nat>)
    requires Exclusive(g, c, d) && AllAsk(g, c) && OwnMembers(g) && Ready(g, st, c) && c in st.stale
    requires forall m :: m in g.Of(c).members ==> m in st.stale && m in xs
    ensures var st' := CalcEach(g, st, xs); c !in st'.stale && st'.Of(c).tri == YES ==> OneChosen(g, st', c)
  {
    assert Waiting(g, st, c);
    EachKeeps(g, st, c, xs, d);
    AllChosen(g, CalcEach(g, st, xs), c, d);
  }

  lemma AllChosen(g: Graph, st: State, c: nat, d: iset<nat>)
    requires Exclusive(g, c, d) && (Waiting(g, st, c) || Running(g, st, c))
    requires forall m :: m in g.Of(c).members ==> m !in st.stale
    ensures c !in st.stale && st.Of(c).tri == YES ==> OneChosen(g, st, c)
  {
    hide Running, Waiting, Exclusive, Picked;
    if c !in st.stale && st.Of(c).tri == YES {
      StillWaiting(g, st, c);
      OnlyChosen(g, st, c, d);
    }
  }

  lemma StillWaiting(g: Graph, st: State, c: nat)
    ensures Waiting(g, st, c) ==> c in st.stale
  {}

  /** sym_clear_all_valid calculates MODULES, and leaves a choice that is not calculated waiting. */
  lemma WaitsAfterClearing(g: Graph, st: State, c: nat, d: iset<nat>)
    requires Exclusive(g, c, d) && Prepared(g, st, c) && c in st.stale
    requires forall m :: m in g.Of(c).members ==> m in st.stale
    ensures Waiting(g, Calc(g, st, g.modules), c)
    ensures forall m :: m in g.Of(c).members ==> m in Calc(g, st, g.modules).stale
  {
    var st1 := Calc(g, st, g.modules);
    CalcSteps(g, st, g.modules, d);
    CalcValidates(g, st, g.modules, d);
    assert Untouched(st, st1, c);
    forall m | m in g.Of(c).members ensures Untouched(st, st1, m) { assert MemberOk(g, c, m, d); }
  }

  /** So exactly one member is y in the end, whatever else is asked for. */
  lemma ChoiceAfterClearing(g: Graph, st: State, c: nat, xs: seq<nat>, d: iset<nat>)
    requires Exclusive(g, c, d) && AllAsk(g, c) && OwnMembers(g) && Prepared(g, st, c) && c in st.stale
    requires forall m :: m in g.Of(c).members ==> m in st.stale && m in xs
    ensures var st' := CalcEach(g, Calc(g, st, g.modules), xs);
      c !in st'.stale && st'.Of(c).tri == YES ==> OneChosen(g, st', c)
  {
    WaitsAfterClearing(g, st, c, d);
    WaitingReady(g, Calc(g, st, g.modules), c);
    ExactlyOneMember(g, Calc(g, st, g.modules), c, xs, d);
  }

  lemma WaitingReady(g: Graph, st: State, c: nat)
    requires Waiting(g, st, c)
    ensures Ready(g, st, c) && c in st.stale
  {}

  lemma OnlyChosen(g: Graph, st: State, c: nat, d: iset<nat>)
    requires Exclusive(g, c, d) && Running(g, st, c) && st.Of(c).tri == YES
    ensures var k := st.Of(c).chosen;
      && k >= 0 && k in g.Of(c).members && k == Picked(g, st, c) && st.Of(k).visible == YES
      && forall m :: m in g.Of(c).members && m !in st.stale ==> (st.Of(m).tri == if m == k then YES else NO)
  {
    var k: nat := st.Of(c).chosen;
    assert MemberOk(g, c, k, d) && Shown(g, st, k);
    hide Shown, Picked, Decided, Exclusive;
    ShownBinary(g, st, c, k, d);
  }
}
