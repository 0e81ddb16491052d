/** The memoising evaluator of symbol values (kconf/symbol.c, with set_all_choice_values of kconf/confdata.c
    and expr_calc_value of kconf/expr.c).

    Symbols are numbered. The functions of this module say what one call makes of the state of all symbols;
    they are defined, and so the calls end, for every graph of symbols, cyclic ones too.
 */
module KconfigSymbol {

  import opened KconfigExpr

  // ----- what the Kconfig files say -----

  /** A `default`: its condition and its value. */
  datatype Default = Default(cond: Option<Expr>, value: Expr)

  datatype Range = Range(cond: Option<Expr>, lo: Symbol, hi: Symbol)

  /** The parts of a `struct symbol` that calculating does not change. `choice` is the choice that a choice
      value belongs to; `members` are the choice values of a choice.
   */
  datatype Info = Info(
    name: string, typ: SymType, prompts: seq<Option<Expr>>, defaults: seq<Default>, ranges: seq<Range>,
    dirDep: Option<Expr>, revDep: Option<Expr>, implied: Option<Expr>,
    isChoice: bool, members: seq<nat>, choice: Option<nat>, auto: bool)

  const NO_INFO: Info := Info("", Other, [], [], [], None, None, None, false, [], None, false)

  /** All symbols, the number of the symbol MODULES, and the library's strtoll, strtoull and sprintf. If none is
      declared, modules_sym is symbol_no: a number without a symbol, which is n and never stale, stands for it.
   */
  datatype Graph = Graph(infos: seq<Info>, modules: nat, strto: (string, SymType) -> Option<int>,
                         number: (string, SymType) -> int, format: (int, SymType) -> string)
  {
    function Of(x: nat): Info { if x < |infos| then infos[x] else NO_INFO }
  }

  // ----- what is calculated -----

  const NULL: int := -1

  /** The parts that calculating changes: `curr` (tri, val and, for a choice, the chosen symbol), the user's
      values, the visibility and the values of the dependencies, and two flags.
   */
  datatype Cell = Cell(
    tri: Tri, val: string, chosen: int, userTri: Tri, userVal: string, userChosen: int,
    visible: Tri, dirDep: Tri, revDep: Tri, implied: Tri, write: bool, defUser: bool)

  const NO_CELL: Cell := Cell(NO, "", NULL, NO, "", NULL, NO, NO, NO, NO, false, false)

  /** `stale`: the symbols without the flag SYMBOL_VALID; `need`: those with SYMBOL_NEED_SET_CHOICE_VALUES. */
  datatype State = State(cells: seq<Cell>, stale: set<nat>, need: set<nat>, modulesVal: Tri) {
    function Of(x: nat): Cell { if x < |cells| then cells[x] else NO_CELL }

    function Put(x: nat, c: Cell): State {
      if x < |cells| then this.(cells := cells[x := c]) else this
    }
  }

  /** The symbols' values as the expressions read them. A Symbol stands for the symbol of its number, and has
      that symbol's type.
   */
  function EnvOf(g: Graph, st: State): Env {
    Env((s: Symbol) => if s.Config? && s.typ == g.Of(s.id).typ then st.Of(s.id).tri else NO,
        (s: Symbol) => if s.Config? then st.Of(s.id).val else "",
        Config(g.modules, g.Of(g.modules).typ), g.strto)
  }

  /** No more symbols waiting for their choice values, and if as many, no more of them stale. */
  predicate NotMore(st': State, st: State) {
    |st'.need| < |st.need| || (|st'.need| == |st.need| && |st'.stale| <= |st.stale|)
  }

  /** sym_get_type. */
  function GetType(g: Graph, st: State, x: nat): SymType {
    var i := g.Of(x);
    if i.typ == Tristate && ((i.choice.Some? && st.Of(x).visible == YES) || st.modulesVal == NO) then Boolean
    else i.typ
  }

  // ----- expr_calc_value -----

  function ExprTri(g: Graph, st: State, e: Expr): (r: (State, Tri))
    ensures NotMore(r.0, st)
    decreases |st.need|, |st.stale|, 1, Size(e)
  {
    match e
    case Sym(s) =>
      var st1 := CalcSym(g, st, s);
      (st1, Curr(s, EnvOf(g, st1)))
    case Not(a) =>
      var (st1, v) := ExprTri(g, st, a);
      (st1, 2 - v)
    case And(l, r) =>
      var (st1, v1) := ExprTri(g, st, l);
      var (st2, v2) := ExprTri(g, st1, r);
      (st2, Min(v1, v2))
    case Or(l, r) =>
      var (st1, v1) := ExprTri(g, st, l);
      var (st2, v2) := ExprTri(g, st1, r);
      (st2, Max(v1, v2))
    case Cmp(op, l, r) =>
      var st1 := CalcSym(g, st, l);
      var st2 := CalcSym(g, st1, r);
      var st3 := ReadString(g, st2, l);
      var st4 := ReadString(g, st3, r);
      (st4, if Holds(op, Relate(l, r, EnvOf(g, st4))) then YES else NO)
  }

  /** sym_get_string_value looks at MODULES if the symbol is m. */
  function ReadString(g: Graph, st: State, s: Symbol): (st': State)
    ensures NotMore(st', st)
    decreases |st.need|, |st.stale|, 0, 1
  {
    if s.Truth() && Curr(s, EnvOf(g, st)) == MOD then Calc(g, st, g.modules) else st
  }

  /** A missing expression counts as y. */
  function OptTri(g: Graph, st: State, e: Option<Expr>): (r: (State, Tri))
    ensures NotMore(r.0, st)
    decreases |st.need|, |st.stale|, 2, 0
  {
    if e.None? then (st, YES) else ExprTri(g, st, e.value)
  }

  /** Constants are always valid. */
  function CalcSym(g: Graph, st: State, s: Symbol): (st': State)
    ensures NotMore(st', st)
    decreases |st.need|, |st.stale|, 0, 1
  {
    if s.Config? then Calc(g, st, s.id) else st
  }

  // ----- sym_calc_visibility -----

  /** A tristate choice value that is only m is hidden while its choice is y. */
  function Unhidden(g: Graph, st: State, x: nat, v: Tri): Tri {
    var i := g.Of(x);
    if i.choice.Some? && i.typ == Tristate && v == MOD && st.Of(i.choice.value).tri == YES then NO else v
  }

  /** The prompts from number k on, joined to the visibility found so far. */
  function Prompts(g: Graph, st: State, x: nat, k: nat, t: Tri): (r: (State, Tri))
    requires k <= |g.Of(x).prompts|
    ensures NotMore(r.0, st)
    decreases |st.need|, |st.stale|, 3, |g.Of(x).prompts| - k
  {
    var i := g.Of(x);
    if k == |i.prompts| then (st, t)
    else
      var (st1, v) := OptTri(g, st, i.prompts[k]);
      Prompts(g, st1, x, k + 1, Max(t, Unhidden(g, st1, x, v)))
  }

  function Promoted(g: Graph, st: State, x: nat, t: Tri): Tri {
    if t == MOD && GetType(g, st, x) == Boolean then YES else t
  }

  function Visibility(g: Graph, st: State, x: nat): (st': State)
    ensures NotMore(st', st)
    decreases |st.need|, |st.stale|, 4, 0
  {
    var i := g.Of(x);
    var (st1, t) := Prompts(g, st, x, 0, NO);
    var visible := if t == MOD && (i.typ != Tristate || st1.modulesVal == NO) then YES else t;
    var st2 := st1.Put(x, st1.Of(x).(visible := visible));
    if i.choice.Some? then st2 else Dependencies(g, st2, x)
  }

  /** The rest of sym_calc_visibility, for symbols that are not choice values. */
  function Dependencies(g: Graph, st: State, x: nat): (st': State)
    ensures NotMore(st', st)
    decreases |st.need|, |st.stale|, 3, 0
  {
    var i := g.Of(x);
    var (st3, d) := OptTri(g, st, i.dirDep);
    var st4 := st3.Put(x, st3.Of(x).(dirDep := Promoted(g, st3, x, d)));
    var (st5, r) := if i.revDep.Some? then ExprTri(g, st4, i.revDep.value) else (st4, NO);
    var st6 := st5.Put(x, st5.Of(x).(revDep := Promoted(g, st5, x, r)));
    var (st7, m) :=
      if i.implied.Some? && st6.Of(x).dirDep != NO then ExprTri(g, st6, i.implied.value) else (st6, NO);
    st7.Put(x, st7.Of(x).(implied := Promoted(g, st7, x, m)))
  }

  // ----- defaults, ranges, choices -----

  /** sym_get_default_prop: the first default from number k on whose condition is not n, and its condition. */
  function DefaultProp(g: Graph, st: State, x: nat, k: nat): (r: (State, Option<Default>, Tri))
    requires k <= |g.Of(x).defaults|
    ensures NotMore(r.0, st)
    decreases |st.need|, |st.stale|, 3, |g.Of(x).defaults| - k
  {
    var i := g.Of(x);
    if k == |i.defaults| then (st, None, NO)
    else
      var (st1, v) := OptTri(g, st, i.defaults[k].cond);
      if v != NO then (st1, Some(i.defaults[k]), v) else DefaultProp(g, st1, x, k + 1)
  }

  function RangeProp(g: Graph, st: State, x: nat, k: nat): (r: (State, Option<Range>))
    requires k <= |g.Of(x).ranges|
    ensures NotMore(r.0, st)
    decreases |st.need|, |st.stale|, 3, |g.Of(x).ranges| - k
  {
    var i := g.Of(x);
    if k == |i.ranges| then (st, None)
    else
      var (st1, v) := OptTri(g, st, i.ranges[k].cond);
      if v != NO then (st1, Some(i.ranges[k])) else RangeProp(g, st1, x, k + 1)
  }

  /** sym_get_range_val. */
  function RangeVal(g: Graph, st: State, s: Symbol, typ: SymType): (r: (State, int))
    ensures NotMore(r.0, st)
    decreases |st.need|, |st.stale|, 2, 0
  {
    var st1 := CalcSym(g, st, s);
    var base := if s.Type() == IntType || s.Type() == HexType then s.Type() else typ;
    (st1, g.number(ValOf(g, st1, s), base))
  }

  /** `curr.val` of a symbol. */
  function ValOf(g: Graph, st: State, s: Symbol): string {
    match s
    case Yes => "y"
    case Mod => "m"
    case No => "n"
    case Literal(name) => name
    case Config(id, _) => st.Of(id).val
  }

  /** sym_validate_range. */
  function ValidateRange(g: Graph, st: State, x: nat): (st': State)
    ensures NotMore(st', st)
    decreases |st.need|, |st.stale|, 4, 0
  {
    var i := g.Of(x);
    if i.typ != IntType && i.typ != HexType then st
    else
      var (st1, prop) := RangeProp(g, st, x, 0);
      if prop.None? then st1
      else
        var v := g.number(st1.Of(x).val, i.typ);
        var (st2, lo) := RangeVal(g, st1, prop.value.lo, i.typ);
        if v < lo then st2.Put(x, st2.Of(x).(val := g.format(lo, i.typ)))
        else
          var (st3, hi) := RangeVal(g, st2, prop.value.hi, i.typ);
          if v <= hi then st3 else st3.Put(x, st3.Of(x).(val := g.format(hi, i.typ)))
  }

  predicate Visible(st: State, x: int) { x >= 0 && st.Of(x).visible != NO }

  function FirstVisible(st: State, members: seq<nat>): (r: int)
    decreases |members|
    ensures r != NULL ==> r in members && Visible(st, r)
    ensures r == NULL ==> forall m :: m in members ==> !Visible(st, m)
  {
    if members == [] then NULL
    else if Visible(st, members[0]) then members[0]
    else FirstVisible(st, members[1..])
  }

  /** sym_choice_default: the first default whose condition holds and whose symbol is visible, else the first
      visible choice value.
   */
  function ChoiceDefault(g: Graph, st: State, x: nat, k: nat): (r: (State, int))
    requires k <= |g.Of(x).defaults|
    ensures NotMore(r.0, st)
    decreases |st.need|, |st.stale|, 3, |g.Of(x).defaults| - k
  {
    var i := g.Of(x);
    if k == |i.defaults| then (st, FirstVisible(st, i.members))
    else
      var (st1, v) := OptTri(g, st, i.defaults[k].cond);
      var d := DefaultSymbol(i.defaults[k]);
      if v != NO && Visible(st1, d) then (st1, d) else ChoiceDefault(g, st1, x, k + 1)
  }

  /** prop_get_symbol, as a number; the built-in symbols have none and are never visible. */
  function DefaultSymbol(d: Default): int {
    if d.value.Sym? && d.value.sym.Config? then d.value.sym.id else NULL
  }

  /** The visibilities of the choice values from number k on, and whether the user has set all visible ones. */
  function MemberVisibilities(g: Graph, st: State, x: nat, k: nat, allSet: bool): (r: (State, bool))
    requires k <= |g.Of(x).members|
    ensures NotMore(r.0, st)
    decreases |st.need|, |st.stale|, 5, |g.Of(x).members| - k
  {
    if k == |g.Of(x).members| then (st, allSet)
    else
      var m := g.Of(x).members[k];
      var st1 := Visibility(g, st, m);
      MemberVisibilities(g, st1, x, k + 1, allSet && (Visible(st1, m) ==> st1.Of(m).defUser))
  }

  /** sym_calc_choice; the chosen symbol is stored by the caller. */
  function CalcChoice(g: Graph, st: State, x: nat): (r: (State, int))
    ensures NotMore(r.0, st)
    decreases |st.need|, |st.stale|, 6, 0
  {
    var (st1, keep) := MemberVisibilities(g, st, x, 0, st.Of(x).defUser);
    var st2 := st1.Put(x, st1.Of(x).(defUser := st1.Of(x).defUser && keep));
    var user := st2.Of(x).userChosen;
    if Visible(st2, user) then (st2, user)
    else
      var (st3, d) := ChoiceDefault(g, st2, x, 0);
      (if d == NULL then st3.Put(x, st3.Of(x).(tri := NO)) else st3, d)
  }

  // ----- sym_calc_value -----

  /** The value of a bool or tristate symbol. */
  function TruthValue(g: Graph, st: State, x: nat): (r: (State, Tri))
    ensures NotMore(r.0, st)
    decreases |st.need|, |st.stale|, 4, 0
  {
    var i, c := g.Of(x), st.Of(x);
    if i.choice.Some? && c.visible == YES then
      Settle(g, st, x, if st.Of(i.choice.value).chosen == x then YES else NO)
    else if c.visible != NO && c.defUser then
      Settle(g, st, x, Max(Min(c.userTri, c.visible), c.revDep))
    else
      var st1 := if c.revDep != NO then st.Put(x, c.(write := true)) else st;
      if i.isChoice then Settle(g, st1, x, Max(NO, st1.Of(x).revDep))
      else
        var (st2, v) := DefaultTri(g, st1, x);
        var implied := st2.Of(x).implied;
        var st3 := if implied != NO then st2.Put(x, st2.Of(x).(write := true)) else st2;
        Settle(g, st3, x, Max(Max(v, implied), st3.Of(x).revDep))
  }

  function DefaultTri(g: Graph, st: State, x: nat): (r: (State, Tri))
    ensures NotMore(r.0, st)
    decreases |st.need|, |st.stale|, 3, |g.Of(x).defaults| + 1
  {
    var (st1, prop, cond) := DefaultProp(g, st, x, 0);
    if prop.None? then (st1, NO)
    else
      var (st2, v) := ExprTri(g, st1, prop.value.value);
      var t := Min(v, cond);
      (if t != NO then st2.Put(x, st2.Of(x).(write := true)) else st2, t)
  }

  /** m becomes y for a bool, and for a symbol that is implied y. */
  function Settle(g: Graph, st: State, x: nat, t: Tri): (r: (State, Tri))
    ensures r.0 == st
  {
    (st, if t == MOD && (GetType(g, st, x) == Boolean || st.Of(x).implied == YES) then YES else t)
  }

  /** The value of an int, hex or string symbol. */
  function TextValue(g: Graph, st: State, x: nat): (r: (State, string))
    ensures NotMore(r.0, st)
    decreases |st.need|, |st.stale|, 4, 0
  {
    var c := st.Of(x);
    if c.visible != NO && c.defUser then (st, c.userVal)
    else
      var (st1, prop, cond) := DefaultProp(g, st, x, 0);
      if prop.None? || !prop.value.value.Sym? then (st1, "")
      else
        var st2 := CalcSym(g, st1.Put(x, st1.Of(x).(write := true)), prop.value.value.sym);
        (st2, ValOf(g, st2, prop.value.value.sym))
  }

  predicate Truth(typ: SymType) { typ == Boolean || typ == Tristate }

  predicate Textual(typ: SymType) { typ == IntType || typ == HexType || typ == StringType }

  /** The members of a written choice are written if visible. */
  function WriteMembers(st: State, members: seq<nat>): (st': State)
    ensures st'.stale == st.stale && st'.need == st.need
    decreases |members|
  {
    if members == [] then st
    else
      var m := members[0];
      WriteMembers(if Visible(st, m) then st.Put(m, st.Of(m).(write := true)) else st, members[1..])
  }

  /** set_all_choice_values. */
  function SetAll(g: Graph, st: State, x: nat): (st': State)
    ensures st'.stale == st.stale + {x} && st'.need == st.need - {x}
  {
    var st1 := UnsetMembers(st, g.Of(x).members);
    st1.Put(x, st1.Of(x).(defUser := true)).(stale := st1.stale + {x}, need := st1.need - {x})
  }

  function UnsetMembers(st: State, members: seq<nat>): (st': State)
    ensures st'.stale == st.stale && st'.need == st.need
    decreases |members|
  {
    if members == [] then st
    else
      var m := members[0];
      UnsetMembers(if st.Of(m).defUser then st else st.Put(m, st.Of(m).(userTri := NO)), members[1..])
  }

  /** sym_calc_value. */
  function Calc(g: Graph, st: State, x: nat): (st': State)
    ensures NotMore(st', st)
    decreases |st.need|, |st.stale|, 0, 0
  {
    if x !in st.stale then st
    else
      var choice := g.Of(x).choice;
      if choice.Some? && x in st.need then
        Validated(st, x);
        var st1 := Calc(g, st.(need := st.need - {x}), choice.value);
        Calculate(g, st1.(stale := st1.stale - {x}), x)
      else
        Calculate(g, st.(stale := st.stale - {x}), x)
  }

  lemma Validated(st: State, x: nat)
    ensures x in st.need ==> |st.need - {x}| < |st.need|
    ensures x in st.stale ==> |st.stale - {x}| < |st.stale|
  {}

  /** The body, for a symbol that has just been marked valid. */
  function Calculate(g: Graph, st: State, x: nat): (st': State)
    ensures NotMore(st', st)
    decreases |st.need|, |st.stale|, 8, 0
  {
    var i, before := g.Of(x), st.Of(x);
    if !Truth(i.typ) && !Textual(i.typ) then st.Put(x, before.(val := i.name, tri := NO))
    else
      var st1 := Visibility(g, st.Put(x, before.(write := false)), x);
      var st2 := NewValue(g, Emptied(g, st1, x), x);
      var st3 := ValidateRange(g, st2, x);
      Finish(g, st3, x, before)
  }

  function Empty(typ: SymType): string { if Truth(typ) then "n" else "" }

  /** A visible symbol is written; the value is reset for the case of a recursive call. */
  function Emptied(g: Graph, st: State, x: nat): (st': State)
    ensures st'.stale == st.stale && st'.need == st.need
  {
    var c := st.Of(x);
    st.Put(x, c.(write := c.write || c.visible != NO, tri := NO, val := Empty(g.Of(x).typ), chosen := NULL))
  }

  /** What follows the calculation: modules_val, the flags, and the choice values waiting to be set. */
  function Finish(g: Graph, st: State, x: nat, before: Cell): (st': State)
    ensures st'.need == st.need - {x} && st'.stale == if x in st.need then st.stale + {x} else st.stale
  {
    var i, c := g.Of(x), st.Of(x);
    var changed := (c.tri, c.val, c.chosen) != (before.tri, before.val, before.chosen);
    var st1 := if changed && x == g.modules then st.(modulesVal := c.tri) else st;
    var st2 := if i.isChoice && c.write then WriteMembers(st1, i.members) else st1;
    var st3 := if i.auto then st2.Put(x, st2.Of(x).(write := false)) else st2;
    if x in st3.need then SetAll(g, st3, x) else st3
  }

  /** The new `curr`. */
  function NewValue(g: Graph, st: State, x: nat): (st': State)
    ensures NotMore(st', st)
    decreases |st.need|, |st.stale|, 7, 0
  {
    var i := g.Of(x);
    if Truth(GetType(g, st, x)) then
      var (st1, t) := TruthValue(g, st, x);
      var st2 := st1.Put(x, st1.Of(x).(tri := t, val := Empty(i.typ), chosen := NULL));
      if i.isChoice && t == YES then
        var (st3, d) := CalcChoice(g, st2, x);
        st3.Put(x, st3.Of(x).(chosen := d))
      else st2
    else
      var (st1, v) := TextValue(g, st, x);
      st1.Put(x, st1.Of(x).(tri := NO, val := v, chosen := NULL))
  }

  /** sym_calc_value of a stale bool or tristate symbol with nothing waiting. */
  lemma CalcTruth(g: Graph, st: State, x: nat)
    requires Truth(g.Of(x).typ) && x in st.stale && st.need == {}
    ensures var st2 := st.(stale := st.stale - {x}).Put(x, st.Of(x).(write := false));
      Calc(g, st, x) == Finish(g, NewValue(g, Emptied(g, Visibility(g, st2, x), x), x), x, st.Of(x))
  {
    hide Visibility, NewValue, Finish, Emptied;
    var st1 := st.(stale := st.stale - {x});
    assert Calc(g, st, x) == Calculate(g, st1, x);
    var st5 := NewValue(g, Emptied(g, Visibility(g, st1.Put(x, st.Of(x).(write := false)), x), x), x);
    assert ValidateRange(g, st5, x) == st5;
    assert Calculate(g, st1, x) == Finish(g, ValidateRange(g, st5, x), x, st1.Of(x));
  }

  // ----- what a call leaves alone -----

  function SymNumbers(s: Symbol): set<nat> { if s.Config? then {s.id} else {} }

  /** The symbols in an expression. */
  function Numbers(e: Expr): set<nat> {
    match e
    case Sym(s) => SymNumbers(s)
    case Not(a) => Numbers(a)
    case And(l, r) => Numbers(l) + Numbers(r)
    case Or(l, r) => Numbers(l) + Numbers(r)
    case Cmp(_, l, r) => SymNumbers(l) + SymNumbers(r)
  }

  function OptNumbers(e: Option<Expr>): set<nat> { if e.None? then {} else Numbers(e.value) }

  ghost predicate Inside(ns: set<nat>, d: iset<nat>) { forall y :: y in ns ==> y in d }

  /** Whatever calculating it may read is in d. */
  ghost predicate ClosedAt(i: Info, d: iset<nat>) {
    && (forall p :: p in i.prompts ==> Inside(OptNumbers(p), d))
    && (forall f :: f in i.defaults ==> Inside(OptNumbers(f.cond), d) && Inside(Numbers(f.value), d))
    && (i.typ == IntType || i.typ == HexType ==>
      forall r :: r in i.ranges ==>
        Inside(OptNumbers(r.cond), d) && Inside(SymNumbers(r.lo), d) && Inside(SymNumbers(r.hi), d))
    && (i.choice.None? ==>
      Inside(OptNumbers(i.dirDep), d) && Inside(OptNumbers(i.revDep), d) && Inside(OptNumbers(i.implied), d))
    && (forall m :: m in i.members ==> m in d)
    && (i.choice.Some? ==> i.choice.value in d)
  }

  /** MODULES may be read. */
  ghost predicate Covered(g: Graph, st: State, d: iset<nat>) { g.modules in d || g.modules !in st.stale }

  /** A set of symbols that depend on each other only. */
  ghost predicate Closed(g: Graph, d: iset<nat>) {
    forall x :: x in d ==> ClosedAt(g.Of(x), d)
  }

  predicate Untouched(st: State, st': State, y: nat) {
    && st'.Of(y) == st.Of(y) && (y in st'.stale <==> y in st.stale) && (y in st'.need <==> y in st.need)
  }

  /** The calculated value. */
  predicate SameValue(st: State, st': State, y: nat) {
    st'.Of(y).tri == st.Of(y).tri && st'.Of(y).val == st.Of(y).val && st'.Of(y).chosen == st.Of(y).chosen
  }

  predicate MaybeM(g: Graph, st: State, y: nat) {
    st.Of(y).tri == MOD ==> g.Of(y).typ == Tristate
  }

  /** Only a tristate symbol is ever m. */
  ghost predicate OnlyTristateM(g: Graph, st: State) {
    forall y: nat :: y < |st.cells| ==> MaybeM(g, st, y)
  }

  /** With no choice values waiting, valid symbols stay valid and, `busy` excepted, keep their values; and
      if MODULES is valid and n, what becomes valid is not m.
   */
  ghost predicate Stable(g: Graph, st: State, st': State, busy: int) {
    && st'.need == {} && st'.stale <= st.stale
    && (forall y: nat :: y !in st.stale && y != busy ==> SameValue(st, st', y))
    && (g.modules !in st.stale && g.modules != busy ==>
      && st'.modulesVal == st.modulesVal
      && (st.modulesVal == NO ==>
        forall y: nat :: y in st.stale && y !in st'.stale && y != busy ==> st'.Of(y).tri != MOD))
  }

  /** What every call does within a closed set of symbols. */
  ghost predicate Step(g: Graph, st: State, st': State, d: iset<nat>, busy: int) {
    && |st'.cells| == |st.cells|
    && (forall y: nat :: y !in d ==> Untouched(st, st', y))
    && (g.modules !in d ==> st'.modulesVal == st.modulesVal)
    && (st.need == {} ==> Stable(g, st, st', busy))
    && (OnlyTristateM(g, st) ==> OnlyTristateM(g, st'))
  }

  lemma StepSelf(g: Graph, st: State, d: iset<nat>, busy: int)
    ensures Step(g, st, st, d, busy)
  {}

  lemma StepTwice(g: Graph, st: State, st1: State, st2: State, d: iset<nat>, busy: int)
    requires Step(g, st, st1, d, busy) && Step(g, st1, st2, d, busy)
    ensures Step(g, st, st2, d, busy)
  {
    forall y: nat | y !in d ensures Untouched(st, st2, y) {
      assert Untouched(st, st1, y) && Untouched(st1, st2, y);
    }
    if st.need == {} { StableTwice(g, st, st1, st2, busy); }
  }

  lemma StableTwice(g: Graph, st: State, st1: State, st2: State, busy: int)
    requires Stable(g, st, st1, busy) && Stable(g, st1, st2, busy)
    ensures Stable(g, st, st2, busy)
  {
    forall y: nat | y !in st.stale && y != busy ensures SameValue(st, st2, y) {
      assert SameValue(st, st1, y) && SameValue(st1, st2, y);
    }
    if g.modules !in st.stale && g.modules != busy && st.modulesVal == NO {
      forall y: nat | y in st.stale && y !in st2.stale && y != busy ensures st2.Of(y).tri != MOD {
        if y !in st1.stale { assert SameValue(st1, st2, y); }
      }
    }
  }

  lemma StepBusy(g: Graph, st: State, st': State, d: iset<nat>, busy: int)
    requires Step(g, st, st', d, NULL)
    ensures Step(g, st, st', d, busy)
  {}

  /** Writing one symbol's cell. */
  lemma StepPut(g: Graph, st: State, x: nat, c: Cell, d: iset<nat>, busy: int)
    requires x in d && (c.tri == st.Of(x).tri || (busy == x && (c.tri == MOD ==> g.Of(x).typ == Tristate)))
    requires busy == x || (c.val == st.Of(x).val && c.chosen == st.Of(x).chosen)
    ensures Step(g, st, st.Put(x, c), d, busy)
  {
    var st' := st.Put(x, c);
    if OnlyTristateM(g, st) {
      forall y: nat | y < |st'.cells| ensures MaybeM(g, st', y) {
        assert MaybeM(g, st, y);
      }
    }
  }

  /** What is read outside of d is valid. */
  ghost predicate Within(st: State, ns: set<nat>, d: iset<nat>) {
    forall y :: y in ns ==> y in d || y !in st.stale
  }

  lemma WithinStep(g: Graph, st: State, st': State, ns: set<nat>, d: iset<nat>, busy: int)
    requires Within(st, ns, d) && Step(g, st, st', d, busy)
    ensures Within(st', ns, d)
  {
    forall y | y in ns && y !in d ensures y !in st'.stale {
      assert Untouched(st, st', y);
    }
  }

  lemma WithinSubset(st: State, ns: set<nat>, d: iset<nat>)
    requires Inside(ns, d)
    ensures Within(st, ns, d)
  {}

  lemma {:induction false} SymSteps(g: Graph, st: State, s: Symbol, d: iset<nat>)
    requires Covered(g, st, d) && Closed(g, d) && Within(st, SymNumbers(s), d)
    ensures Step(g, st, CalcSym(g, st, s), d, NULL)
    ensures Covered(g, CalcSym(g, st, s), d)
    decreases |st.need|, |st.stale|, 0, 1
  {
    if s.Config? && s.id in st.stale {
      assert s.id in SymNumbers(s);
      CalcSteps(g, st, s.id, d);
    } else {
      StepSelf(g, st, d, NULL);
    }
  }

  lemma {:induction false} ExprSteps(g: Graph, st: State, e: Expr, d: iset<nat>)
    requires Covered(g, st, d) && Closed(g, d) && Within(st, Numbers(e), d)
    ensures Step(g, st, ExprTri(g, st, e).0, d, NULL)
    ensures Covered(g, ExprTri(g, st, e).0, d)
    decreases |st.need|, |st.stale|, 1, Size(e)
  {
    hide Step;
    match e
    case Sym(s) => SymSteps(g, st, s, d);
    case Not(a) => ExprSteps(g, st, a, d);
    case And(l, r) => BothSteps(g, st, l, r, d);
    case Or(l, r) => BothSteps(g, st, l, r, d);
    case Cmp(op, l, r) =>
      SymSteps(g, st, l, d);
      var st1 := CalcSym(g, st, l);
      WithinStep(g, st, st1, SymNumbers(r), d, NULL);
      SymSteps(g, st1, r, d);
      var st2 := CalcSym(g, st1, r);
      StepTwice(g, st, st1, st2, d, NULL);
      ReadSteps(g, st2, l, d);
      var st3 := ReadString(g, st2, l);
      StepTwice(g, st, st2, st3, d, NULL);
      ReadSteps(g, st3, r, d);
      StepTwice(g, st, st3, ReadString(g, st3, r), d, NULL);
  }

  lemma {:induction false} ReadSteps(g: Graph, st: State, s: Symbol, d: iset<nat>)
    requires Covered(g, st, d) && Closed(g, d)
    ensures Step(g, st, ReadString(g, st, s), d, NULL)
    ensures Covered(g, ReadString(g, st, s), d)
    decreases |st.need|, |st.stale|, 0, 1
  {
    if s.Truth() && Curr(s, EnvOf(g, st)) == MOD && g.modules in st.stale {
      CalcSteps(g, st, g.modules, d);
    } else {
      StepSelf(g, st, d, NULL);
    }
  }

  lemma {:induction false} BothSteps(g: Graph, st: State, l: Expr, r: Expr, d: iset<nat>)
    requires Covered(g, st, d) && Closed(g, d) && Within(st, Numbers(l) + Numbers(r), d)
    ensures Step(g, st, ExprTri(g, ExprTri(g, st, l).0, r).0, d, NULL)
    ensures Covered(g, ExprTri(g, ExprTri(g, st, l).0, r).0, d)
    decreases |st.need|, |st.stale|, 1, Size(l) + Size(r)
  {
    hide Step;
    ExprSteps(g, st, l, d);
    var st1 := ExprTri(g, st, l).0;
    WithinStep(g, st, st1, Numbers(r), d, NULL);
    ExprSteps(g, st1, r, d);
    StepTwice(g, st, st1, ExprTri(g, st1, r).0, d, NULL);
  }

  lemma {:induction false} OptSteps(g: Graph, st: State, e: Option<Expr>, d: iset<nat>)
    requires Covered(g, st, d) && Closed(g, d) && Within(st, OptNumbers(e), d)
    ensures Step(g, st, OptTri(g, st, e).0, d, NULL)
    ensures Covered(g, OptTri(g, st, e).0, d)
    decreases |st.need|, |st.stale|, 2, 0
  {
    if e.None? { StepSelf(g, st, d, NULL); } else { ExprSteps(g, st, e.value, d); }
  }

  lemma {:induction false} PromptsSteps(g: Graph, st: State, x: nat, k: nat, t: Tri, d: iset<nat>)
    requires Covered(g, st, d) && Closed(g, d) && k <= |g.Of(x).prompts|
    requires forall p :: p in g.Of(x).prompts ==> Within(st, OptNumbers(p), d)
    ensures Step(g, st, Prompts(g, st, x, k, t).0, d, NULL)
    ensures Covered(g, Prompts(g, st, x, k, t).0, d)
    decreases |st.need|, |st.stale|, 3, |g.Of(x).prompts| - k
  {
    hide Step, Within;
    var i := g.Of(x);
    if k == |i.prompts| {
      StepSelf(g, st, d, NULL);
    } else {
      var (st1, v) := OptTri(g, st, i.prompts[k]);
      OptSteps(g, st, i.prompts[k], d);
      forall p | p in i.prompts ensures Within(st1, OptNumbers(p), d) {
        WithinStep(g, st, st1, OptNumbers(p), d, NULL);
      }
      var t1 := Max(t, Unhidden(g, st1, x, v));
      PromptsSteps(g, st1, x, k + 1, t1, d);
      StepTwice(g, st, st1, Prompts(g, st1, x, k + 1, t1).0, d, NULL);
    }
  }

  lemma StepWider(g: Graph, st: State, st': State, d: iset<nat>, d': iset<nat>, busy: int)
    requires Step(g, st, st', d, busy) && d <= d'
    ensures Step(g, st, st', d', busy)
  {}

  /** Whatever sym_calc_visibility reads is in d, or a valid symbol read by a prompt. */
  ghost predicate VisibilityReads(g: Graph, st: State, x: nat, d: iset<nat>) {
    var i := g.Of(x);
    && (forall p :: p in i.prompts ==> Within(st, OptNumbers(p), d))
    && (i.choice.None? ==>
      Inside(OptNumbers(i.dirDep), d) && Inside(OptNumbers(i.revDep), d) && Inside(OptNumbers(i.implied), d))
  }

  lemma {:induction false} VisibilitySteps(g: Graph, st: State, x: nat, d: iset<nat>)
    requires Covered(g, st, d) && Closed(g, d) && x in d
    ensures Step(g, st, Visibility(g, st, x), d, NULL)
    ensures Covered(g, Visibility(g, st, x), d)
    decreases |st.need|, |st.stale|, 4, 1
  {
    assert ClosedAt(g.Of(x), d);
    forall p | p in g.Of(x).prompts ensures Within(st, OptNumbers(p), d) { WithinSubset(st, OptNumbers(p), d); }
    VisibilityAround(g, st, x, d);
    assert d + iset{x} == d;
  }

  lemma {:induction false} VisibilityAround(g: Graph, st: State, x: nat, d: iset<nat>)
    requires Covered(g, st, d) && Closed(g, d) && VisibilityReads(g, st, x, d)
    ensures Step(g, st, Visibility(g, st, x), d + iset{x}, NULL)
    ensures Covered(g, Visibility(g, st, x), d + iset{x})
    decreases |st.need|, |st.stale|, 4, 0
  {
    hide Step, Within, Inside;
    var i, dx := g.Of(x), d + iset{x};
    PromptsSteps(g, st, x, 0, NO, d);
    var (st1, t) := Prompts(g, st, x, 0, NO);
    StepWider(g, st, st1, d, dx, NULL);
    var visible := if t == MOD && (i.typ != Tristate || st1.modulesVal == NO) then YES else t;
    var c2 := st1.Of(x).(visible := visible);
    StepPut(g, st1, x, c2, dx, NULL);
    StepTwice(g, st, st1, st1.Put(x, c2), dx, NULL);
    if i.choice.None? {
      DependencySteps(g, st1.Put(x, c2), x, d);
      StepTwice(g, st, st1.Put(x, c2), Dependencies(g, st1.Put(x, c2), x), dx, NULL);
    }
  }

  /** A dependency is calculated within d, and its value stored. */
  lemma StoreSteps(g: Graph, st: State, st1: State, x: nat, c: Cell, d: iset<nat>)
    requires Step(g, st, st1, d, NULL)
    requires c.tri == st1.Of(x).tri && c.val == st1.Of(x).val && c.chosen == st1.Of(x).chosen
    ensures Step(g, st, st1.Put(x, c), d + iset{x}, NULL)
  {
    hide Step;
    StepWider(g, st, st1, d, d + iset{x}, NULL);
    StepPut(g, st1, x, c, d + iset{x}, NULL);
    StepTwice(g, st, st1, st1.Put(x, c), d + iset{x}, NULL);
  }

  lemma {:induction false} DependencySteps(g: Graph, st: State, x: nat, d: iset<nat>)
    requires Covered(g, st, d) && Closed(g, d)
    requires Inside(OptNumbers(g.Of(x).dirDep), d) && Inside(OptNumbers(g.Of(x).revDep), d)
    requires Inside(OptNumbers(g.Of(x).implied), d)
    ensures Step(g, st, Dependencies(g, st, x), d + iset{x}, NULL)
    ensures Covered(g, Dependencies(g, st, x), d + iset{x})
    decreases |st.need|, |st.stale|, 3, 0
  {
    hide Step, Within, Inside, Promoted;
    var i, dx := g.Of(x), d + iset{x};
    WithinSubset(st, OptNumbers(i.dirDep), d);
    OptSteps(g, st, i.dirDep, d);
    var (st3, v) := OptTri(g, st, i.dirDep);
    StoreSteps(g, st, st3, x, st3.Of(x).(dirDep := Promoted(g, st3, x, v)), d);
    var st4 := st3.Put(x, st3.Of(x).(dirDep := Promoted(g, st3, x, v)));
    var (st5, r) := if i.revDep.Some? then ExprTri(g, st4, i.revDep.value) else (st4, NO);
    WithinSubset(st4, OptNumbers(i.revDep), d);
    if i.revDep.Some? { ExprSteps(g, st4, i.revDep.value, d); } else { StepSelf(g, st4, d, NULL); }
    StoreSteps(g, st4, st5, x, st5.Of(x).(revDep := Promoted(g, st5, x, r)), d);
    var st6 := st5.Put(x, st5.Of(x).(revDep := Promoted(g, st5, x, r)));
    StepTwice(g, st, st4, st6, dx, NULL);
    ImpliedSteps(g, st6, x, d);
    StepTwice(g, st, st6, Dependencies(g, st, x), dx, NULL);
  }

  lemma {:induction false} ImpliedSteps(g: Graph, st: State, x: nat, d: iset<nat>)
    requires Covered(g, st, d) && Closed(g, d) && Inside(OptNumbers(g.Of(x).implied), d)
    ensures var i := g.Of(x);
            var (st1, m) :=
              if i.implied.Some? && st.Of(x).dirDep != NO then ExprTri(g, st, i.implied.value) else (st, NO);
            var st2 := st1.Put(x, st1.Of(x).(implied := Promoted(g, st1, x, m)));
            Step(g, st, st2, d + iset{x}, NULL) && Covered(g, st2, d)
    decreases |st.need|, |st.stale|, 2, 0
  {
    hide Step, Within, Inside, Promoted;
    var i := g.Of(x);
    var (st1, m) := if i.implied.Some? && st.Of(x).dirDep != NO then ExprTri(g, st, i.implied.value) else (st, NO);
    if i.implied.Some? && st.Of(x).dirDep != NO {
      WithinSubset(st, OptNumbers(i.implied), d);
      ExprSteps(g, st, i.implied.value, d);
    } else {
      StepSelf(g, st, d, NULL);
    }
    StoreSteps(g, st, st1, x, st1.Of(x).(implied := Promoted(g, st1, x, m)), d);
  }

  lemma {:induction false} DefaultPropSteps(g: Graph, st: State, x: nat, k: nat, d: iset<nat>)
    requires Covered(g, st, d) && Closed(g, d) && x in d && k <= |g.Of(x).defaults|
    ensures Step(g, st, DefaultProp(g, st, x, k).0, d, NULL)
    ensures Covered(g, DefaultProp(g, st, x, k).0, d)
    ensures DefaultProp(g, st, x, k).1.Some? ==> DefaultProp(g, st, x, k).1.value in g.Of(x).defaults
    decreases |st.need|, |st.stale|, 3, |g.Of(x).defaults| - k
  {
    hide Step, Within;
    var i := g.Of(x);
    assert ClosedAt(i, d);
    if k == |i.defaults| {
      StepSelf(g, st, d, NULL);
    } else {
      WithinSubset(st, OptNumbers(i.defaults[k].cond), d);
      OptSteps(g, st, i.defaults[k].cond, d);
      var (st1, v) := OptTri(g, st, i.defaults[k].cond);
      if v == NO {
        DefaultPropSteps(g, st1, x, k + 1, d);
        StepTwice(g, st, st1, DefaultProp(g, st1, x, k + 1).0, d, NULL);
      }
    }
  }

  lemma {:induction false} RangePropSteps(g: Graph, st: State, x: nat, k: nat, d: iset<nat>)
    requires Covered(g, st, d) && Closed(g, d) && x in d && k <= |g.Of(x).ranges|
    requires g.Of(x).typ == IntType || g.Of(x).typ == HexType
    ensures Step(g, st, RangeProp(g, st, x, k).0, d, NULL)
    ensures Covered(g, RangeProp(g, st, x, k).0, d)
    ensures RangeProp(g, st, x, k).1.Some? ==> RangeProp(g, st, x, k).1.value in g.Of(x).ranges
    decreases |st.need|, |st.stale|, 3, |g.Of(x).ranges| - k
  {
    hide Step, Within;
    var i := g.Of(x);
    assert ClosedAt(i, d);
    if k == |i.ranges| {
      StepSelf(g, st, d, NULL);
    } else {
      WithinSubset(st, OptNumbers(i.ranges[k].cond), d);
      OptSteps(g, st, i.ranges[k].cond, d);
      var (st1, v) := OptTri(g, st, i.ranges[k].cond);
      if v == NO {
        RangePropSteps(g, st1, x, k + 1, d);
        StepTwice(g, st, st1, RangeProp(g, st1, x, k + 1).0, d, NULL);
      }
    }
  }

  lemma {:induction false} ChoiceDefaultSteps(g: Graph, st: State, x: nat, k: nat, d: iset<nat>)
    requires Covered(g, st, d) && Closed(g, d) && k <= |g.Of(x).defaults|
    requires forall f :: f in g.Of(x).defaults ==> Inside(OptNumbers(f.cond), d)
    ensures Step(g, st, ChoiceDefault(g, st, x, k).0, d, NULL)
    ensures Covered(g, ChoiceDefault(g, st, x, k).0, d)
    decreases |st.need|, |st.stale|, 3, |g.Of(x).defaults| - k
  {
    hide Step, Within, Inside;
    var i := g.Of(x);
    if k == |i.defaults| {
      StepSelf(g, st, d, NULL);
    } else {
      assert i.defaults[k] in i.defaults;
      WithinSubset(st, OptNumbers(i.defaults[k].cond), d);
      OptSteps(g, st, i.defaults[k].cond, d);
      var (st1, v) := OptTri(g, st, i.defaults[k].cond);
      if !(v != NO && Visible(st1, DefaultSymbol(i.defaults[k]))) {
        ChoiceDefaultSteps(g, st1, x, k + 1, d);
        StepTwice(g, st, st1, ChoiceDefault(g, st1, x, k + 1).0, d, NULL);
      }
    }
  }

  lemma {:induction false} RangeValSteps(g: Graph, st: State, s: Symbol, typ: SymType, d: iset<nat>)
    requires Covered(g, st, d) && Closed(g, d) && Inside(SymNumbers(s), d)
    ensures Step(g, st, RangeVal(g, st, s, typ).0, d, NULL)
    ensures Covered(g, RangeVal(g, st, s, typ).0, d)
    decreases |st.need|, |st.stale|, 2, 0
  {
    SymSteps(g, st, s, d);
  }

  /** The value of the symbol in progress is stored. */
  lemma ValSteps(g: Graph, st: State, st1: State, x: nat, v: string, d: iset<nat>)
    requires x in d && Step(g, st, st1, d, x)
    ensures Step(g, st, st1.Put(x, st1.Of(x).(val := v)), d, x)
    ensures st1.Put(x, st1.Of(x).(val := v)).Of(x).tri == st1.Of(x).tri
  {
    hide Step;
    StepPut(g, st1, x, st1.Of(x).(val := v), d, x);
    StepTwice(g, st, st1, st1.Put(x, st1.Of(x).(val := v)), d, x);
  }

  /** The value may change, the tristate value does not. */
  lemma {:induction false} ValidateRangeSteps(g: Graph, st: State, x: nat, d: iset<nat>)
    requires Covered(g, st, d) && Closed(g, d) && x in d
    ensures Step(g, st, ValidateRange(g, st, x), d, x)
    ensures Covered(g, ValidateRange(g, st, x), d)
    ensures st.need == {} && x !in st.stale ==> ValidateRange(g, st, x).Of(x).tri == st.Of(x).tri
    ensures SameModules(g, st, ValidateRange(g, st, x))
    decreases |st.need|, |st.stale|, 4, 0
  {
    hide Step, Within;
    var i := g.Of(x);
    assert ClosedAt(i, d);
    StepSelf(g, st, d, x);
    if i.typ == IntType || i.typ == HexType {
      RangePropSteps(g, st, x, 0, d);
      var (st1, prop) := RangeProp(g, st, x, 0);
      StepKeeps(g, st, st1, x, d);
      if prop.Some? {
        assert prop.value in i.ranges;
        RangeValSteps(g, st1, prop.value.lo, i.typ, d);
        var (st2, lo) := RangeVal(g, st1, prop.value.lo, i.typ);
        StepTwice(g, st, st1, st2, d, NULL);
        StepKeeps(g, st, st2, x, d);
        ValSteps(g, st, st2, x, g.format(lo, i.typ), d);
        if g.number(st1.Of(x).val, i.typ) >= lo {
          RangeValSteps(g, st2, prop.value.hi, i.typ, d);
          var (st3, hi) := RangeVal(g, st2, prop.value.hi, i.typ);
          StepTwice(g, st, st2, st3, d, NULL);
          StepKeeps(g, st, st3, x, d);
          ValSteps(g, st, st3, x, g.format(hi, i.typ), d);
        }
      }
    }
  }

  /** modules_val changes only when MODULES is calculated. */
  predicate SameModules(g: Graph, st: State, st': State) {
    st.need == {} && g.modules !in st.stale ==>
      st'.need == {} && g.modules !in st'.stale && st'.modulesVal == st.modulesVal
  }

  /** A symbol in progress is valid, so calls on other symbols keep what it has. */
  lemma StepKeeps(g: Graph, st: State, st': State, x: nat, d: iset<nat>)
    requires Step(g, st, st', d, NULL)
    ensures Step(g, st, st', d, x)
    ensures st.need == {} && x !in st.stale ==> SameValue(st, st', x) && st'.need == {} && x !in st'.stale
    ensures SameModules(g, st, st')
  {}

  lemma {:induction false} MemberVisibilitiesSteps(g: Graph, st: State, x: nat, k: nat, allSet: bool, d: iset<nat>)
    requires Covered(g, st, d) && Closed(g, d) && x in d && k <= |g.Of(x).members|
    ensures Step(g, st, MemberVisibilities(g, st, x, k, allSet).0, d, NULL)
    ensures Covered(g, MemberVisibilities(g, st, x, k, allSet).0, d)
    decreases |st.need|, |st.stale|, 5, |g.Of(x).members| - k
  {
    hide Step;
    if k == |g.Of(x).members| {
      StepSelf(g, st, d, NULL);
    } else {
      var m := g.Of(x).members[k];
      assert ClosedAt(g.Of(x), d) && m in g.Of(x).members;
      VisibilitySteps(g, st, m, d);
      var st1 := Visibility(g, st, m);
      var set1 := allSet && (Visible(st1, m) ==> st1.Of(m).defUser);
      MemberVisibilitiesSteps(g, st1, x, k + 1, set1, d);
      StepTwice(g, st, st1, MemberVisibilities(g, st1, x, k + 1, set1).0, d, NULL);
    }
  }

  /** The default member, or a reset to n. */
  lemma {:induction false} DefaultOrNoneSteps(g: Graph, st: State, x: nat, d: iset<nat>)
    requires Covered(g, st, d) && Closed(g, d) && x in d
    ensures var (st1, m) := ChoiceDefault(g, st, x, 0);
            var st2 := if m == NULL then st1.Put(x, st1.Of(x).(tri := NO)) else st1;
            && Step(g, st, st2, d, x) && Covered(g, st2, d) && SameModules(g, st, st2)
            && (st.need == {} && x !in st.stale ==> st2.Of(x).tri == st.Of(x).tri || st2.Of(x).tri == NO)
    decreases |st.need|, |st.stale|, 4, 0
  {
    hide Step;
    assert ClosedAt(g.Of(x), d);
    ChoiceDefaultSteps(g, st, x, 0, d);
    var st1 := ChoiceDefault(g, st, x, 0).0;
    StepKeeps(g, st, st1, x, d);
    StepPut(g, st1, x, st1.Of(x).(tri := NO), d, x);
    StepTwice(g, st, st1, st1.Put(x, st1.Of(x).(tri := NO)), d, x);
  }

  /** The choice keeps its value or is reset to n. */
  lemma {:induction false} CalcChoiceSteps(g: Graph, st: State, x: nat, d: iset<nat>)
    requires Covered(g, st, d) && Closed(g, d) && x in d
    ensures Step(g, st, CalcChoice(g, st, x).0, d, x)
    ensures Covered(g, CalcChoice(g, st, x).0, d)
    ensures st.need == {} && x !in st.stale ==>
      CalcChoice(g, st, x).0.Of(x).tri == st.Of(x).tri || CalcChoice(g, st, x).0.Of(x).tri == NO
    ensures SameModules(g, st, CalcChoice(g, st, x).0)
    decreases |st.need|, |st.stale|, 6, 0
  {
    hide Step;
    MemberVisibilitiesSteps(g, st, x, 0, st.Of(x).defUser, d);
    var (st1, keep) := MemberVisibilities(g, st, x, 0, st.Of(x).defUser);
    var c2 := st1.Of(x).(defUser := st1.Of(x).defUser && keep);
    StepPut(g, st1, x, c2, d, NULL);
    var st2 := st1.Put(x, c2);
    StepTwice(g, st, st1, st2, d, NULL);
    StepKeeps(g, st, st2, x, d);
    if !Visible(st2, st2.Of(x).userChosen) {
      DefaultOrNoneSteps(g, st2, x, d);
      StepTwice(g, st, st2, CalcChoice(g, st, x).0, d, x);
    }
  }

  lemma {:induction false} DefaultTriSteps(g: Graph, st: State, x: nat, d: iset<nat>)
    requires Covered(g, st, d) && Closed(g, d) && x in d
    ensures Step(g, st, DefaultTri(g, st, x).0, d, NULL)
    ensures Covered(g, DefaultTri(g, st, x).0, d)
    decreases |st.need|, |st.stale|, 3, |g.Of(x).defaults| + 1
  {
    hide Step, Within;
    assert ClosedAt(g.Of(x), d);
    DefaultPropSteps(g, st, x, 0, d);
    var (st1, prop, cond) := DefaultProp(g, st, x, 0);
    if prop.Some? {
      WithinSubset(st1, Numbers(prop.value.value), d);
      ExprSteps(g, st1, prop.value.value, d);
      var (st2, v) := ExprTri(g, st1, prop.value.value);
      StepTwice(g, st, st1, st2, d, NULL);
      StepPut(g, st2, x, st2.Of(x).(write := true), d, NULL);
      StepTwice(g, st, st2, st2.Put(x, st2.Of(x).(write := true)), d, NULL);
    }
  }

  lemma {:induction false} TruthValueSteps(g: Graph, st: State, x: nat, d: iset<nat>)
    requires Covered(g, st, d) && Closed(g, d) && x in d
    ensures Step(g, st, TruthValue(g, st, x).0, d, NULL)
    ensures Covered(g, TruthValue(g, st, x).0, d)
    ensures TruthValue(g, st, x).1 == MOD ==> GetType(g, TruthValue(g, st, x).0, x) != Boolean
    decreases |st.need|, |st.stale|, 4, 0
  {
    hide Step;
    StepSelf(g, st, d, NULL);
    var i, c := g.Of(x), st.Of(x);
    StepPut(g, st, x, c.(write := true), d, NULL);
    var st1 := if c.revDep != NO then st.Put(x, c.(write := true)) else st;
    if !i.isChoice {
      DefaultTriSteps(g, st1, x, d);
      var (st2, v) := DefaultTri(g, st1, x);
      StepTwice(g, st, st1, st2, d, NULL);
      StepPut(g, st2, x, st2.Of(x).(write := true), d, NULL);
      StepTwice(g, st, st2, st2.Put(x, st2.Of(x).(write := true)), d, NULL);
    }
  }

  lemma {:induction false} TextValueSteps(g: Graph, st: State, x: nat, d: iset<nat>)
    requires Covered(g, st, d) && Closed(g, d) && x in d
    ensures Step(g, st, TextValue(g, st, x).0, d, NULL)
    ensures Covered(g, TextValue(g, st, x).0, d)
    decreases |st.need|, |st.stale|, 4, 0
  {
    hide Step, Within;
    assert ClosedAt(g.Of(x), d);
    StepSelf(g, st, d, NULL);
    DefaultPropSteps(g, st, x, 0, d);
    var (st1, prop, cond) := DefaultProp(g, st, x, 0);
    if prop.Some? && prop.value.value.Sym? {
      var s := prop.value.value.sym;
      var st2 := st1.Put(x, st1.Of(x).(write := true));
      StepPut(g, st1, x, st1.Of(x).(write := true), d, NULL);
      StepTwice(g, st, st1, st2, d, NULL);
      WithinSubset(st2, SymNumbers(s), d);
      SymSteps(g, st2, s, d);
      StepTwice(g, st, st2, CalcSym(g, st2, s), d, NULL);
    }
  }

  /** No m while MODULES is n. */
  predicate NotM(g: Graph, st: State, st': State, x: nat) {
    st.need == {} && x !in st.stale && g.modules !in st.stale && g.modules != x && st.modulesVal == NO ==>
      st'.Of(x).tri != MOD
  }

  lemma {:induction false} NewValueSteps(g: Graph, st: State, x: nat, d: iset<nat>)
    requires Covered(g, st, d) && Closed(g, d) && x in d
    ensures Step(g, st, NewValue(g, st, x), d, x) && NotM(g, st, NewValue(g, st, x), x)
    ensures Covered(g, NewValue(g, st, x), d)
    ensures SameModules(g, st, NewValue(g, st, x))
    decreases |st.need|, |st.stale|, 7, 0
  {
    hide Step;
    var i := g.Of(x);
    if Truth(GetType(g, st, x)) {
      TruthValueSteps(g, st, x, d);
      var (st1, t) := TruthValue(g, st, x);
      StepKeeps(g, st, st1, x, d);
      StepModules(g, st, st1, x, d);
      var c2 := st1.Of(x).(tri := t, val := Empty(i.typ), chosen := NULL);
      var st2 := st1.Put(x, c2);
      StepPut(g, st1, x, c2, d, x);
      StepTwice(g, st, st1, st2, d, x);
      if i.isChoice && t == YES {
        CalcChoiceSteps(g, st2, x, d);
        var (st3, s) := CalcChoice(g, st2, x);
        StepTwice(g, st, st2, st3, d, x);
        StepPut(g, st3, x, st3.Of(x).(chosen := s), d, x);
        StepTwice(g, st, st3, st3.Put(x, st3.Of(x).(chosen := s)), d, x);
      }
    } else {
      TextValueSteps(g, st, x, d);
      var (st1, v) := TextValue(g, st, x);
      StepKeeps(g, st, st1, x, d);
      var c2 := st1.Of(x).(tri := NO, val := v, chosen := NULL);
      StepPut(g, st1, x, c2, d, x);
      StepTwice(g, st, st1, st1.Put(x, c2), d, x);
    }
  }

  lemma StepModules(g: Graph, st: State, st': State, x: nat, d: iset<nat>)
    requires Step(g, st, st', d, x)
    ensures st.need == {} && g.modules !in st.stale && g.modules != x ==>
      st'.need == {} && g.modules !in st'.stale && st'.modulesVal == st.modulesVal
  {}

  lemma {:induction false} WriteMembersStep(g: Graph, st: State, members: seq<nat>, d: iset<nat>, x: nat)
    requires forall m :: m in members ==> m in d
    ensures Step(g, st, WriteMembers(st, members), d, NULL) && WriteMembers(st, members).Of(x).tri == st.Of(x).tri
    decreases |members|
  {
    hide Step;
    StepSelf(g, st, d, NULL);
    if members != [] {
      var m := members[0];
      StepPut(g, st, m, st.Of(m).(write := true), d, NULL);
      var st1 := if Visible(st, m) then st.Put(m, st.Of(m).(write := true)) else st;
      WriteMembersStep(g, st1, members[1..], d, x);
      StepTwice(g, st, st1, WriteMembers(st1, members[1..]), d, NULL);
    }
  }

  lemma {:induction false} UnsetMembersStep(g: Graph, st: State, members: seq<nat>, d: iset<nat>, x: nat)
    requires forall m :: m in members ==> m in d
    ensures Step(g, st, UnsetMembers(st, members), d, NULL)
    decreases |members|
  {
    hide Step;
    StepSelf(g, st, d, NULL);
    if members != [] {
      var m := members[0];
      StepPut(g, st, m, st.Of(m).(userTri := NO), d, NULL);
      var st1 := if st.Of(m).defUser then st else st.Put(m, st.Of(m).(userTri := NO));
      UnsetMembersStep(g, st1, members[1..], d, x);
      StepTwice(g, st, st1, UnsetMembers(st1, members[1..]), d, NULL);
    }
  }

  /** Only flags of x, or MODULES' value if x is MODULES. */
  lemma StepFlags(g: Graph, st: State, st': State, x: nat, d: iset<nat>)
    requires x in d && st'.cells == st.cells && (x == g.modules || st'.modulesVal == st.modulesVal)
    requires st'.stale - {x} == st.stale - {x} && st'.need - {x} == st.need - {x}
    requires st.need == {} ==> st'.need == {} && st'.stale <= st.stale
    ensures Step(g, st, st', d, x)
  {
    forall y: nat | y != x ensures Untouched(st, st', y) {
      assert y in st'.stale <==> y in st'.stale - {x};
      assert y in st.stale <==> y in st.stale - {x};
      assert y in st'.need <==> y in st'.need - {x};
      assert y in st.need <==> y in st.need - {x};
    }
    if OnlyTristateM(g, st) {
      forall y: nat | y < |st'.cells| ensures MaybeM(g, st', y) { assert MaybeM(g, st, y); }
    }
    assert forall y: nat :: y in st.stale && y !in st'.stale && y != x ==> Untouched(st, st', y);
    assert forall y: nat :: SameValue(st, st', y);
  }

  lemma SetAllStep(g: Graph, st: State, x: nat, d: iset<nat>)
    requires Covered(g, st, d) && Closed(g, d) && x in d && x in st.need
    ensures Step(g, st, SetAll(g, st, x), d, x)
    ensures Covered(g, SetAll(g, st, x), d)
  {
    hide Step;
    assert ClosedAt(g.Of(x), d);
    UnsetMembersStep(g, st, g.Of(x).members, d, x);
    var st1 := UnsetMembers(st, g.Of(x).members);
    var st2 := st1.Put(x, st1.Of(x).(defUser := true));
    StepPut(g, st1, x, st1.Of(x).(defUser := true), d, x);
    StepBusy(g, st, st1, d, x);
    StepTwice(g, st, st1, st2, d, x);
    StepFlags(g, st2, SetAll(g, st, x), x, d);
    StepTwice(g, st, st2, SetAll(g, st, x), d, x);
  }

  lemma FinishStep(g: Graph, st: State, x: nat, before: Cell, d: iset<nat>)
    requires Covered(g, st, d) && Closed(g, d) && x in d
    ensures Step(g, st, Finish(g, st, x, before), d, x)
    ensures Covered(g, Finish(g, st, x, before), d)
    ensures st.need == {} ==> Finish(g, st, x, before).Of(x).tri == st.Of(x).tri
  {
    var i, c := g.Of(x), st.Of(x);
    assert ClosedAt(i, d);
    var changed := (c.tri, c.val, c.chosen) != (before.tri, before.val, before.chosen);
    var st1 := if changed && x == g.modules then st.(modulesVal := c.tri) else st;
    hide Step;
    StepFlags(g, st, st1, x, d);
    WriteMembersStep(g, st1, i.members, d, x);
    StepSelf(g, st1, d, x);
    var st2 := if i.isChoice && c.write then WriteMembers(st1, i.members) else st1;
    StepBusy(g, st1, WriteMembers(st1, i.members), d, x);
    StepTwice(g, st, st1, st2, d, x);
    StepPut(g, st2, x, st2.Of(x).(write := false), d, x);
    StepSelf(g, st2, d, x);
    var st3 := if i.auto then st2.Put(x, st2.Of(x).(write := false)) else st2;
    StepTwice(g, st, st2, st3, d, x);
    if x in st3.need {
      SetAllStep(g, st3, x, d);
      StepTwice(g, st, st3, SetAll(g, st3, x), d, x);
    }
  }

  lemma {:induction false} CalculateSteps(g: Graph, st: State, x: nat, d: iset<nat>)
    requires Covered(g, st, d) && Closed(g, d) && x in d
    ensures Step(g, st, Calculate(g, st, x), d, x) && NotM(g, st, Calculate(g, st, x), x)
    ensures Covered(g, Calculate(g, st, x), d)
    decreases |st.need|, |st.stale|, 8, 0
  {
    hide Step;
    var i, before := g.Of(x), st.Of(x);
    if !Truth(i.typ) && !Textual(i.typ) {
      StepPut(g, st, x, before.(val := i.name, tri := NO), d, x);
    } else {
      var st0 := st.Put(x, before.(write := false));
      StepPut(g, st, x, before.(write := false), d, x);
      VisibilitySteps(g, st0, x, d);
      var st1 := Visibility(g, st0, x);
      StepBusy(g, st0, st1, d, x);
      StepTwice(g, st, st0, st1, d, x);
      EmptiedStep(g, st1, x, d);
      var st2 := Emptied(g, st1, x);
      StepTwice(g, st, st1, st2, d, x);
      StepNarrows(g, st, st2, x, d);
      StepModules(g, st, st2, x, d);
      NewValueSteps(g, st2, x, d);
      var st3 := NewValue(g, st2, x);
      StepTwice(g, st, st2, st3, d, x);
      StepNarrows(g, st, st3, x, d);
      ValidateRangeSteps(g, st3, x, d);
      var st4 := ValidateRange(g, st3, x);
      StepTwice(g, st, st3, st4, d, x);
      StepNarrows(g, st, st4, x, d);
      FinishStep(g, st4, x, before, d);
      StepTwice(g, st, st4, Finish(g, st4, x, before), d, x);
    }
  }

  lemma EmptiedStep(g: Graph, st: State, x: nat, d: iset<nat>)
    requires x in d
    ensures Step(g, st, Emptied(g, st, x), d, x)
  {
    var c := st.Of(x);
    var c' := c.(write := c.write || c.visible != NO, tri := NO, val := Empty(g.Of(x).typ), chosen := NULL);
    StepPut(g, st, x, c', d, x);
  }

  lemma StepNarrows(g: Graph, st: State, st': State, x: nat, d: iset<nat>)
    requires Step(g, st, st', d, x)
    ensures st.need == {} ==> st'.need == {} && st'.stale <= st.stale
  {}

  lemma {:induction false} CalcSteps(g: Graph, st: State, x: nat, d: iset<nat>)
    requires Covered(g, st, d) && Closed(g, d) && x in d
    ensures Step(g, st, Calc(g, st, x), d, NULL)
    ensures Covered(g, Calc(g, st, x), d)
    decreases |st.need|, |st.stale|, 0, 0
  {
    hide Step;
    Validated(st, x);
    StepSelf(g, st, d, NULL);
    if x in st.stale {
      var choice := g.Of(x).choice;
      if choice.Some? && x in st.need {
        assert ClosedAt(g.Of(x), d);
        var st0 := st.(need := st.need - {x});
        var st1 := Calc(g, st0, choice.value);
        var st2 := st1.(stale := st1.stale - {x});
        StepFlags(g, st, st0, x, d);
        CalcSteps(g, st0, choice.value, d);
        StepBusy(g, st0, st1, d, x);
        StepTwice(g, st, st0, st1, d, x);
        StepFlags(g, st1, st2, x, d);
        StepTwice(g, st, st1, st2, d, x);
        CalculateSteps(g, st2, x, d);
        StepTwice(g, st, st2, Calculate(g, st2, x), d, x);
        StepPending(g, st, Calculate(g, st2, x), x, d);
      } else {
        var st2 := st.(stale := st.stale - {x});
        CalculateSteps(g, st2, x, d);
        Marked(g, st, Calculate(g, st2, x), x, d);
      }
    }
  }

  lemma StepPending(g: Graph, st: State, st': State, x: nat, d: iset<nat>)
    requires Step(g, st, st', d, x) && x in st.need
    ensures Step(g, st, st', d, NULL)
  {}

  /** A symbol that was stale may change its value. */
  lemma Marked(g: Graph, st: State, st': State, x: nat, d: iset<nat>)
    requires x in st.stale && x in d
    requires Step(g, st.(stale := st.stale - {x}), st', d, x) && NotM(g, st.(stale := st.stale - {x}), st', x)
    ensures Step(g, st, st', d, NULL)
  {
    var st2 := st.(stale := st.stale - {x});
    forall y: nat | y !in d ensures Untouched(st, st', y) { assert Untouched(st2, st', y); }
    if OnlyTristateM(g, st) {
      forall y: nat | y < |st2.cells| ensures MaybeM(g, st2, y) { assert MaybeM(g, st, y); }
    }
    if st.need == {} {
      forall y: nat | y !in st.stale ensures SameValue(st, st', y) { assert SameValue(st2, st', y); }
    }
  }

  // ----- what a call guarantees of the values -----

  predicate Number(y: nat) { true }

  ghost function Everything(): iset<nat> { iset y: nat | Number(y) }

  /** The values are fit to be read: MODULES is valid, nothing waits, and no valid symbol is m that may not be. */
  ghost predicate Settled(g: Graph, st: State) {
    && st.need == {} && g.modules !in st.stale && st.modulesVal == st.Of(g.modules).tri && OnlyTristateM(g, st)
    && (st.modulesVal == NO ==> forall y: nat :: y !in st.stale ==> st.Of(y).tri != MOD)
  }

  /** sym_calc_value keeps that, for any symbol of any graph. */
  lemma CalcKeepsSettled(g: Graph, st: State, x: nat)
    requires Settled(g, st)
    ensures Settled(g, Calc(g, st, x))
  {
    CalcSteps(g, st, x, Everything());
    var st' := Calc(g, st, x);
    assert SameValue(st, st', g.modules);
    if st'.modulesVal == NO {
      forall y: nat | y !in st'.stale ensures st'.Of(y).tri != MOD {
        if y !in st.stale { assert SameValue(st, st', y); }
      }
    }
  }

  /** So when all symbols are valid, a bool is never m, and nothing is m while MODULES is n: the environment
      is one in which the rewritings of expressions keep their meaning.
   */
  lemma AllValidConsistent(g: Graph, st: State)
    requires Settled(g, st) && st.stale == {}
    ensures Consistent(EnvOf(g, st))
  {
    var env := EnvOf(g, st);
    forall s: Symbol | s.Truth() && Curr(s, env) == MOD ensures s.Type() == Tristate && Curr(env.modules, env) != NO {
      assert s.id < |st.cells| && MaybeM(g, st, s.id);
    }
  }

  /** MODULES itself: if what it depends on is not tristate, calculating it first, as sym_clear_all_valid
      does, makes the values fit.
   */
  lemma ModulesFirst(g: Graph, st: State, d: iset<nat>)
    requires st.need == {} && OnlyTristateM(g, st) && st.modulesVal == st.Of(g.modules).tri
    requires g.Of(g.modules).typ == Boolean
    requires forall y: nat :: y < |st.cells| ==> y in st.stale
    requires Closed(g, d) && g.modules in d && g.modules in st.stale && forall y :: y in d ==> g.Of(y).typ != Tristate
    ensures Settled(g, Calc(g, st, g.modules))
  {
    var x, st' := g.modules, Calc(g, st, g.modules);
    CalcSteps(g, st, x, d);
    ModulesSync(g, st.(stale := st.stale - {x}), x, d);
    forall y: nat | y !in st'.stale ensures st'.Of(y).tri != MOD {
      if y in d {
        if y < |st'.cells| { assert MaybeM(g, st', y); }
      } else {
        assert Untouched(st, st', y);
      }
    }
  }

  /** A tristate symbol with a prompt, set to m by the user, is m while MODULES counts as y. */
  lemma BecomesM(g: Graph, st: State)
    requires g.modules == 0 && st.need == {} && st.stale == {1} && |st.cells| == 2 && st.modulesVal == YES
    requires g.Of(1) == Info("T", Tristate, [None], [], [], None, None, None, false, [], None, false)
    requires st.Of(1) == NO_CELL.(userTri := MOD, defUser := true)
    ensures var st' := Calc(g, st, 1);
      && st'.need == {} && st'.stale == {} && st'.modulesVal == YES && |st'.cells| == 2
      && st'.Of(0) == st.Of(0) && st'.Of(1).tri == MOD
  {
    var st0 := st.(stale := {});
    assert st.stale - {1} == {} && st0.Put(1, st0.Of(1).(write := false)) == st0;
    CalcTruth(g, st, 1);
    assert Prompts(g, st0, 1, 1, YES) == (st0, YES);
    assert Prompts(g, st0, 1, 0, NO) == (st0, YES);
    var st1 := st0.Put(1, st0.Of(1).(visible := YES));
    var st2 := st1.Put(1, st1.Of(1).(dirDep := YES));
    assert Dependencies(g, st1, 1) == st2;
    assert Visibility(g, st0, 1) == st2;
    hide Visibility, Calc;
    var st3 := Emptied(g, st2, 1);
    assert TruthValue(g, st3, 1) == (st3, MOD);
    assert NewValue(g, st3, 1) == st3.Put(1, st3.Of(1).(tri := MOD, val := "n", chosen := NULL));
  }

  /** Nothing is stored that was not there, but for the value of `depends on`. */
  lemma OnlyDirDep(g: Graph, st: State, st1: State)
    requires st.need == {} && st.modulesVal == YES
    requires g.Of(0) == Info("MODULES", Boolean, [], [], [], Some(Sym(Config(1, Tristate))), None, None, false,
                             [], None, false)
    requires st1 == Calc(g, st, 1) && st1.Of(1).tri == MOD && g.Of(1).typ == Tristate
    requires |st1.cells| == 2 && st1.Of(0) == NO_CELL.(tri := YES)
    ensures Dependencies(g, st, 0) == st1.Put(0, st1.Of(0).(dirDep := YES))
  {
    hide Calc;
    assert ExprTri(g, st, Sym(Config(1, Tristate))) == (st1, MOD);
    assert OptTri(g, st, g.Of(0).dirDep) == (st1, MOD) && Promoted(g, st1, 0, MOD) == YES;
    var st4 := st1.Put(0, st1.Of(0).(dirDep := YES));
    assert st4.Put(0, st4.Of(0)) == st4;
    assert Promoted(g, st4, 0, NO) == NO && st4.Of(0).(revDep := NO) == st4.Of(0).(implied := NO) == st4.Of(0);
  }

  /** A MODULES that depends on a tristate symbol is calculated too late: that symbol is found to be m by the
      old value y of MODULES, which then becomes n.
   */
  lemma ModulesTooLate(g: Graph, st: State)
    requires g.modules == 0 && g.infos == [
      Info("MODULES", Boolean, [], [], [], Some(Sym(Config(1, Tristate))), None, None, false, [], None, false),
      Info("T", Tristate, [None], [], [], None, None, None, false, [], None, false)]
    requires st == State([NO_CELL.(tri := YES), NO_CELL.(userTri := MOD, defUser := true)], {0, 1}, {}, YES)
    ensures var st' := Calc(g, st, g.modules);
      st'.modulesVal == NO && 1 !in st'.stale && st'.Of(1).tri == MOD && !Settled(g, st')
  {
    hide Calc, Visibility, Dependencies, Emptied, NewValue, Finish, Settled;
    var st0 := st.(stale := {1});
    assert st.stale - {0} == {1} && st0.Put(0, st0.Of(0).(write := false)) == st0;
    CalcTruth(g, st, 0);
    NotShown(g, st0, 0);
    BecomesM(g, st0);
    var st1 := Calc(g, st0, 1);
    OnlyDirDep(g, st0, st1);
    var st2 := st1.Put(0, st1.Of(0).(dirDep := YES));
    NoModules(g, st2);
    assert st2.Of(1) == st1.Of(1);
    NotSettled(g, Calc(g, st, 0), 1);
  }

  lemma NotSettled(g: Graph, st: State, y: nat)
    requires st.modulesVal == NO && y !in st.stale && st.Of(y).tri == MOD
    ensures !Settled(g, st)
  {}

  lemma NotShown(g: Graph, st: State, x: nat)
    requires g.Of(x).prompts == [] && g.Of(x).choice.None? && st.Of(x).visible == NO && x < |st.cells|
    ensures Visibility(g, st, x) == Dependencies(g, st, x)
  {
    assert Prompts(g, st, x, 0, NO) == (st, NO) && st.Put(x, st.Of(x).(visible := NO)) == st;
  }

  /** A bool without prompt and defaults becomes n. */
  lemma NoModules(g: Graph, st: State)
    requires g.modules == 0 && |st.cells| == 2 && st.need == {}
    requires g.Of(0).typ == Boolean && g.Of(0).defaults == [] && !g.Of(0).isChoice && g.Of(0).choice.None?
    requires st.Of(0).visible == NO && st.Of(0).revDep == NO && st.Of(0).implied == NO && st.Of(0).tri == YES
    requires !g.Of(0).auto
    ensures var st' := Finish(g, NewValue(g, Emptied(g, st, 0), 0), 0, NO_CELL.(tri := YES));
      st'.modulesVal == NO && st'.stale == st.stale && st'.Of(1) == st.Of(1)
  {
    var st3 := Emptied(g, st, 0);
    assert DefaultTri(g, st3, 0) == (st3, NO) by { assert DefaultProp(g, st3, 0, 0) == (st3, None, NO); }
    assert TruthValue(g, st3, 0) == (st3, NO);
    assert NewValue(g, st3, 0) == st3.Put(0, st3.Of(0).(tri := NO, val := "n", chosen := NULL));
  }

  lemma ModulesSync(g: Graph, st: State, x: nat, d: iset<nat>)
    requires st.need == {} && x == g.modules && g.Of(x).typ == Boolean && x !in st.stale
    requires st.modulesVal == st.Of(x).tri && Closed(g, d) && x in d
    ensures var st' := Calculate(g, st, x); st'.modulesVal == st'.Of(x).tri && x !in st'.stale
  {
    hide Step, Visibility, NewValue, ValidateRange, Finish;
    var i, before := g.Of(x), st.Of(x);
    var st0 := st.Put(x, before.(write := false));
    VisibilitySteps(g, st0, x, d);
    var st1 := Visibility(g, st0, x);
    StepKeeps(g, st0, st1, x, d);
    var st2 := Emptied(g, st1, x);
    NewValueSteps(g, st2, x, d);
    var st3 := NewValue(g, st2, x);
    StepNarrows(g, st2, st3, x, d);
    ValidateRangeSteps(g, st3, x, d);
    FinishSync(g, ValidateRange(g, st3, x), x, before, d);
  }

  lemma FinishSync(g: Graph, st: State, x: nat, before: Cell, d: iset<nat>)
    requires st.need == {} && x == g.modules && x !in st.stale && st.modulesVal == before.tri && Closed(g, d) && x in d
    ensures var st' := Finish(g, st, x, before); st'.modulesVal == st'.Of(x).tri && x !in st'.stale
  {
    FinishStep(g, st, x, before, d);
    WriteKeeps(st, g.Of(x).members);
    WriteKeeps(st.(modulesVal := st.Of(x).tri), g.Of(x).members);
  }

  lemma {:induction false} WriteKeeps(st: State, members: seq<nat>)
    ensures WriteMembers(st, members).modulesVal == st.modulesVal
    decreases |members|
  {
    if members != [] {
      var m := members[0];
      WriteKeeps(if Visible(st, m) then st.Put(m, st.Of(m).(write := true)) else st, members[1..]);
    }
  }
}
