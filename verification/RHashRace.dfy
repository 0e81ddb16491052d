/** Insertions that race for the pages of a nested bucket array (compat/lib-rhashtable.c:122-145, 1214-1240).

    A state machine with one step for each load of a word, allocation, cmpxchg and kfree, run by any number of
    calls of rht_bucket_nested_insert on one table, in any interleaving, sequentially consistent. Allocations
    may fail.
 */
module RHashRace {

  import opened RHashNested

  /** What a call does next: it stands at the page n. */
  datatype Phase =
    | Load(n: nat)                          // *prev
    | Create(n: nat)                        // kzalloc, the word having been NULL
    | Swap(n: nat, page: Option<nat>)       // cmpxchg
    | Release(n: nat, page: Option<nat>)    // kfree, the race being lost
    | Reload(n: nat)                        // *prev once more
    | Found(n: nat)
    | Failed

  /** One call; `depth` is how many pages it has behind it, the top one included in the one it stands at. */
  datatype Walk = Walk(hash: nat, depth: nat, phase: Phase) {
    predicate Over() { phase.Found? || phase.Failed? }

    /** The page that is not in the tree, and that no other call knows of. */
    function Own(): Option<nat> { if phase.Swap? || phase.Release? then phase.page else None }
  }

  datatype State = State(m: Memory, at: Layout, walks: seq<Walk>, freed: seq<nat>)

  /** The call numbered t goes on; `ok` is whether memory can be had, should it ask for some. */
  datatype Step = Step(t: nat, ok: bool)

  predicate Enabled(s: State, a: Step) { a.t < |s.walks| && !s.walks[a.t].Over() }

  /** The indices up to the word that the call uses in the page it stands at. */
  function Way(g: Geometry, w: Walk): (q: seq<nat>)
    requires g.Valid()
    ensures q != []
  {
    Address(g, w.hash)[..if w.depth < g.Depth() then w.depth + 1 else g.Depth() + 1]
  }

  function Index(g: Geometry, w: Walk): nat
    requires g.Valid()
  {
    Way(g, w)[|Way(g, w)| - 1]
  }

  function Word(s: State, n: nat, i: nat): Option<nat> {
    if (n, i) in s.m.table then Some(s.m.table[(n, i)]) else None
  }

  predicate Leaf(g: Geometry, w: Walk)
    requires g.Valid()
  {
    w.depth + 1 == g.Depth()
  }

  /** The page behind the word is found: on to its own word, or the end. */
  function Arrived(g: Geometry, w: Walk, page: nat): Walk
    requires g.Valid()
  {
    Walk(w.hash, w.depth + 1, if Leaf(g, w) then Found(page) else Load(page))
  }

  function Put(s: State, t: nat, w: Walk): State
    requires t < |s.walks|
  {
    s.(walks := s.walks[t := w])
  }

  function After(g: Geometry, s: State, a: Step): State
    requires g.Valid() && Enabled(s, a)
  {
    var w := s.walks[a.t];
    var i := Index(g, w);
    match w.phase
    case Load(n) =>
      var word := Word(s, n, i);
      Put(s, a.t, if word.Some? then Arrived(g, w, word.value) else w.(phase := Create(n)))
    case Create(n) =>
      if a.ok then
        Put(s.(m := Created(s.m, Leaf(g, w))), a.t, w.(phase := Swap(n, Some(s.m.nextPage))))
      else
        Put(s, a.t, w.(phase := Swap(n, None)))
    case Swap(n, page) =>
      if Word(s, n, i).Some? then Put(s, a.t, w.(phase := Release(n, page)))
      else if page.None? then Put(s, a.t, w.(phase := Failed))
      else
        Put(s.(m := Linked(s.m, n, i, page.value), at := s.at[Way(g, w) := page.value]), a.t,
            Arrived(g, w, page.value))
    case Release(n, page) =>
      Put(s.(freed := if page.Some? then s.freed + [page.value] else s.freed), a.t, w.(phase := Reload(n)))
    case Reload(n) =>
      var word := Word(s, n, i);
      Put(s, a.t, if word.Some? then Arrived(g, w, word.value) else w.(phase := Failed))
  }

  // ----- the invariant -----

  predicate WalkOk(g: Geometry, m: Memory, at: Layout, w: Walk)
    requires g.Valid()
  {
    var a := Address(g, w.hash);
    && w.hash < g.Buckets() && w.depth <= g.Depth()
    && match w.phase
       case Failed => true
       case Found(n) => w.depth == g.Depth() && a[..w.depth] in at && at[a[..w.depth]] == n
       case _ =>
         && w.depth < g.Depth() && a[..w.depth] in at && at[a[..w.depth]] == w.phase.n
         && (w.phase.Release? || w.phase.Reload? ==> a[..w.depth + 1] in at)
         && (w.Own().Some? ==> Aside(m, at, w.Own().value))
         && (w.phase.Swap? && w.phase.page.Some? ==> (w.phase.page.value in m.buckets <==> Leaf(g, w)))
  }

  predicate Owner(ws: seq<Walk>, t: nat, p: nat) { t < |ws| && ws[t].Own() == Some(p) }

  ghost predicate Owned(ws: seq<Walk>, p: nat) { exists t: nat :: Owner(ws, t, p) }

  predicate InTree(at: Layout, p: nat) { p in at.Values }

  /** Every page allocated is in the tree, with one call, or freed; only one of these, and freed once. */
  ghost predicate PageAccounted(s: State, p: nat) {
    && (p < s.m.nextPage <==> InTree(s.at, p) || Owned(s.walks, p) || p in s.freed)
    && (p in s.freed ==> !InTree(s.at, p) && !Owned(s.walks, p))
    && (Owned(s.walks, p) ==> !InTree(s.at, p))
  }

  ghost predicate Accounted(s: State) {
    && (forall p: nat :: PageAccounted(s, p))
    && (forall p: nat, t: nat, u: nat :: Owner(s.walks, t, p) && Owner(s.walks, u, p) ==> t == u)
    && NoDup(s.freed)
  }

  ghost predicate AllOk(g: Geometry, s: State)
    requires g.Valid()
  {
    forall t: nat :: t < |s.walks| ==> WalkOk(g, s.m, s.at, s.walks[t])
  }

  ghost predicate Inv(g: Geometry, s: State) {
    WellFormed(g, s.m, s.at) && Accounted(s) && AllOk(g, s)
  }

  /** All calls begin at the top page; nothing has been freed yet. */
  predicate Init(g: Geometry, s: State)
    requires g.Valid()
  {
    && s.m == Memory(map[], {}, 1) && s.at == map[[] := 0] && s.freed == []
    && forall t :: 0 <= t < |s.walks| ==>
      s.walks[t].hash < g.Buckets() && s.walks[t].depth == 0 && s.walks[t].phase == Load(0)
  }

  lemma InitInv(g: Geometry, s: State)
    requires g.Valid() && Init(g, s)
    ensures Inv(g, s)
  {
    GeometryFacts(g);
    forall p: nat ensures PageAccounted(s, p) {
      if p == 0 { assert s.at[[]] == 0; }
    }
  }

  // ----- one step -----

  /** What the word of a call says. */
  lemma WordAt(g: Geometry, s: State, t: nat)
    requires Inv(g, s) && t < |s.walks| && !s.walks[t].Over()
    ensures var w, a := s.walks[t], Address(g, s.walks[t].hash);
      && w.depth < g.Depth() && Way(g, w) == a[..w.depth + 1] == a[..w.depth] + [Index(g, w)]
      && Index(g, w) == a[w.depth]
      && Index(g, w) < (if w.depth == 0 then g.TopLen() else g.PageLen())
      && (a[..w.depth + 1] in s.at <==> Word(s, w.phase.n, Index(g, w)).Some?)
      && (a[..w.depth + 1] in s.at ==> Word(s, w.phase.n, Index(g, w)) == Some(s.at[a[..w.depth + 1]]))
  {
    var w, a := s.walks[t], Address(g, s.walks[t].hash);
    assert WalkOk(g, s.m, s.at, w);
    AddressOfHash(g, w.hash);
    assert a[w.depth] < if w.depth == 0 then g.TopLen() else g.PageLen() by {
      if w.depth > 0 { assert a[1..][w.depth - 1] == a[w.depth]; }
    }
    assert a[..w.depth + 1] == a[..w.depth] + [a[w.depth]];
    assert WordOk(s.m, s.at, a[..w.depth], a[w.depth]);
  }

  /** A call that takes or gives away no page, and changes nothing in memory. */
  lemma QuietStep(g: Geometry, s: State, t: nat, w: Walk)
    requires Inv(g, s) && t < |s.walks| && WalkOk(g, s.m, s.at, w) && w.Own() == s.walks[t].Own()
    ensures Inv(g, Put(s, t, w))
  {
    hide WellFormed, WalkOk;
    var s' := Put(s, t, w);
    forall p: nat ensures PageAccounted(s', p) {
      assert PageAccounted(s, p);
      assert forall u: nat :: Owner(s'.walks, u, p) <==> Owner(s.walks, u, p);
    }
    forall p: nat, u: nat, v: nat | Owner(s'.walks, u, p) && Owner(s'.walks, v, p) ensures u == v {
      assert Owner(s.walks, u, p) && Owner(s.walks, v, p);
    }
  }

  lemma OkCreated(g: Geometry, m: Memory, at: Layout, leaf: bool, w: Walk)
    requires WellFormed(g, m, at) && WalkOk(g, m, at, w)
    ensures WalkOk(g, Created(m, leaf), at, w)
  {
    hide WellFormed, Address;
  }

  lemma OkLinked(g: Geometry, m: Memory, at: Layout, q: seq<nat>, i: nat, p: nat, w: Walk)
    requires WellFormed(g, m, at) && WalkOk(g, m, at, w) && q in at && q + [i] !in at && w.Own() != Some(p)
    ensures WalkOk(g, Linked(m, at[q], i, p), at[q + [i] := p], w)
  {
    hide WellFormed, Address;
  }

  /** kzalloc gives a page that is nowhere else. */
  lemma CreateStep(g: Geometry, s: State, t: nat)
    requires Inv(g, s) && t < |s.walks| && s.walks[t].phase.Create?
    ensures var w := s.walks[t];
      Inv(g, Put(s.(m := Created(s.m, Leaf(g, w))), t, w.(phase := Swap(w.phase.n, Some(s.m.nextPage)))))
  {
    var w := s.walks[t];
    assert WalkOk(g, s.m, s.at, w);
    var m', w' := Created(s.m, Leaf(g, w)), w.(phase := Swap(w.phase.n, Some(s.m.nextPage)));
    var s' := Put(s.(m := m'), t, w');
    FreshIsAside(g, s.m, s.at);
    CreatedWellFormed(g, s.m, s.at, Leaf(g, w));
    forall u: nat | u < |s.walks| ensures WalkOk(g, m', s.at, s'.walks[u]) {
      assert WalkOk(g, s.m, s.at, s.walks[u]);
      if u != t { OkCreated(g, s.m, s.at, Leaf(g, w), s.walks[u]); }
    }
    hide WellFormed, WalkOk, Aside, Leaf;
    PageCreated(s, s', t);
  }

  lemma PageCreated(s: State, s': State, t: nat)
    requires Accounted(s) && t < |s.walks| == |s'.walks| && s.walks[t].Own() == None
    requires s'.walks == s.walks[t := s'.walks[t]] && s'.walks[t].Own() == Some(s.m.nextPage)
    requires s'.m.nextPage == s.m.nextPage + 1 && s'.at == s.at && s'.freed == s.freed
    ensures Accounted(s')
  {
    var p0 := s.m.nextPage;
    assert PageAccounted(s, p0) && Owner(s'.walks, t, p0);
    forall p: nat ensures PageAccounted(s', p) {
      assert PageAccounted(s, p);
      if p != p0 { assert forall u: nat :: Owner(s'.walks, u, p) <==> Owner(s.walks, u, p); }
    }
    forall p: nat, u: nat, v: nat | Owner(s'.walks, u, p) && Owner(s'.walks, v, p) ensures u == v {
      if p == p0 {
        assert u != t ==> Owner(s.walks, u, p);
        assert v != t ==> Owner(s.walks, v, p);
      } else {
        assert Owner(s.walks, u, p) && Owner(s.walks, v, p);
      }
    }
  }

  lemma OwnedOnce(s: State, t: nat, u: nat, p: nat)
    requires Accounted(s) && Owner(s.walks, t, p) && Owner(s.walks, u, p)
    ensures t == u
  {}

  /** The call that wins the race makes its page part of the tree. */
  lemma LinkStep(g: Geometry, s: State, t: nat)
    requires Inv(g, s) && t < |s.walks| && s.walks[t].phase.Swap? && s.walks[t].phase.page.Some?
    requires Word(s, s.walks[t].phase.n, Index(g, s.walks[t])).None?
    ensures var w := s.walks[t];
      var q, p := Way(g, w), w.phase.page.value;
      Inv(g, Put(s.(m := Linked(s.m, w.phase.n, Index(g, w), p), at := s.at[q := p]), t, Arrived(g, w, p)))
  {
    var w, a := s.walks[t], Address(g, s.walks[t].hash);
    var q, i, p := a[..w.depth], Index(g, w), w.phase.page.value;
    WordAt(g, s, t);
    assert WalkOk(g, s.m, s.at, w) && Owner(s.walks, t, p);
    LinkedWellFormed(g, s.m, s.at, q, i, p);
    var m', at' := Linked(s.m, w.phase.n, i, p), s.at[q + [i] := p];
    var s' := Put(s.(m := m', at := at'), t, Arrived(g, w, p));
    assert WalkOk(g, m', at', Arrived(g, w, p));
    hide WellFormed, WalkOk, Aside, Leaf, Address, Index, Word, Way;
    forall u: nat | u < |s.walks| ensures WalkOk(g, m', at', s'.walks[u]) {
      assert WalkOk(g, s.m, s.at, s.walks[u]);
      if u != t {
        if s.walks[u].Own() == Some(p) { OwnedOnce(s, t, u, p); }
        OkLinked(g, s.m, s.at, q, i, p, s.walks[u]);
      }
    }
    PageLinked(s, s', t, q + [i], p);
  }

  lemma PageLinked(s: State, s': State, t: nat, q: seq<nat>, p0: nat)
    requires Accounted(s) && t < |s.walks| == |s'.walks| && Owner(s.walks, t, p0) && q !in s.at
    requires s'.walks == s.walks[t := s'.walks[t]] && s'.walks[t].Own() == None
    requires s'.m.nextPage == s.m.nextPage && s'.at == s.at[q := p0] && s'.freed == s.freed
    ensures Accounted(s')
  {
    forall p: nat ensures InTree(s'.at, p) <==> InTree(s.at, p) || p == p0 {
      if InTree(s.at, p) {
        var r :| r in s.at && s.at[r] == p;
        assert s'.at[r] == p;
      }
      assert s'.at[q] == p0;
    }
    assert PageAccounted(s, p0) && Owned(s.walks, p0);
    PageGivenAway(s, s', t, p0);
  }

  lemma PageGivenAway(s: State, s': State, t: nat, p0: nat)
    requires Accounted(s) && t < |s.walks| == |s'.walks| && Owner(s.walks, t, p0)
    requires s'.walks == s.walks[t := s'.walks[t]] && s'.walks[t].Own() == None
    requires s'.m.nextPage == s.m.nextPage
    requires forall p: nat ::
      (InTree(s'.at, p) || p in s'.freed) <==> (InTree(s.at, p) || p in s.freed || p == p0)
    requires forall p: nat :: p != p0 ==> (InTree(s'.at, p) <==> InTree(s.at, p)) && (p in s'.freed <==> p in s.freed)
    requires !(InTree(s'.at, p0) && p0 in s'.freed) && NoDup(s'.freed)
    ensures Accounted(s')
  {
    assert PageAccounted(s, p0);
    forall p: nat ensures PageAccounted(s', p) {
      assert PageAccounted(s, p);
      if p == p0 {
        forall u: nat | Owner(s'.walks, u, p) ensures false {
          assert Owner(s.walks, u, p);
          OwnedOnce(s, t, u, p);
        }
      } else {
        assert forall u: nat :: Owner(s'.walks, u, p) <==> Owner(s.walks, u, p);
      }
    }
    forall p: nat, u: nat, v: nat | Owner(s'.walks, u, p) && Owner(s'.walks, v, p) ensures u == v {
      assert Owner(s.walks, u, p) && Owner(s.walks, v, p);
    }
  }

  /** The call that loses it frees its page. */
  lemma ReleaseStep(g: Geometry, s: State, t: nat)
    requires Inv(g, s) && t < |s.walks| && s.walks[t].phase.Release? && s.walks[t].phase.page.Some?
    ensures var w := s.walks[t];
      Inv(g, Put(s.(freed := s.freed + [w.phase.page.value]), t, w.(phase := Reload(w.phase.n))))
  {
    var w := s.walks[t];
    var p, w' := w.phase.page.value, w.(phase := Reload(w.phase.n));
    assert WalkOk(g, s.m, s.at, w) && WalkOk(g, s.m, s.at, w') && Owner(s.walks, t, p) && PageAccounted(s, p);
    hide WellFormed, WalkOk;
    var s' := Put(s.(freed := s.freed + [p]), t, w');
    PageGivenAway(s, s', t, p);
  }

  /** The invariant is kept by every step, */
  lemma InvStep(g: Geometry, s: State, a: Step)
    requires Inv(g, s) && Enabled(s, a)
    ensures Inv(g, After(g, s, a))
  {
    var t, w := a.t, s.walks[a.t];
    WordAt(g, s, t);
    assert WalkOk(g, s.m, s.at, w);
    hide WellFormed, Accounted, AllOk, Address, Index, Aside, Way;
    match w.phase
    case Create(n) => if a.ok { CreateStep(g, s, t); } else { QuietStep(g, s, t, w.(phase := Swap(n, None))); }
    case Swap(n, page) =>
      if Word(s, n, Index(g, w)).None? && page.Some? {
        LinkStep(g, s, t);
      } else {
        QuietStep(g, s, t, After(g, s, a).walks[t]);
      }
    case Release(n, page) =>
      if page.Some? { ReleaseStep(g, s, t); } else { QuietStep(g, s, t, w.(phase := Reload(n))); }
    case Load(_) => QuietStep(g, s, t, After(g, s, a).walks[t]);
    case Reload(_) => QuietStep(g, s, t, After(g, s, a).walks[t]);
  }

  // ----- runs -----

  predicate Runs(g: Geometry, s: State, run: seq<Step>)
    requires g.Valid()
    decreases |run|
  {
    run != [] ==> Enabled(s, run[0]) && Runs(g, After(g, s, run[0]), run[1..])
  }

  function End(g: Geometry, s: State, run: seq<Step>): State
    requires g.Valid() && Runs(g, s, run)
    decreases |run|
  {
    if run == [] then s else End(g, After(g, s, run[0]), run[1..])
  }

  lemma {:induction false} InvRun(g: Geometry, s: State, run: seq<Step>)
    requires Inv(g, s) && Runs(g, s, run)
    ensures Inv(g, End(g, s, run))
    decreases |run|
  {
    assert g.Valid();
    hide Inv, After;
    if run != [] {
      InvStep(g, s, run[0]);
      InvRun(g, After(g, s, run[0]), run[1..]);
    }
  }

  /** Pages in the tree stay where they are, and so does what a call has found. */
  ghost predicate Onward(s: State, s': State) {
    && |s'.walks| == |s.walks|
    && (forall q :: q in s.at ==> q in s'.at && s'.at[q] == s.at[q])
    && forall t :: 0 <= t < |s.walks| && s.walks[t].Over() ==> s'.walks[t] == s.walks[t]
  }

  lemma OnwardStep(g: Geometry, s: State, a: Step)
    requires Inv(g, s) && Enabled(s, a)
    ensures Onward(s, After(g, s, a))
  {
    WordAt(g, s, a.t);
    hide WellFormed, Address, Accounted, AllOk, Way;
  }

  lemma {:induction false} OnwardRun(g: Geometry, s: State, run: seq<Step>)
    requires Inv(g, s) && Runs(g, s, run)
    ensures Onward(s, End(g, s, run))
    decreases |run|
  {
    assert g.Valid();
    hide Inv, After;
    if run != [] {
      InvStep(g, s, run[0]);
      OnwardStep(g, s, run[0]);
      OnwardRun(g, After(g, s, run[0]), run[1..]);
    }
  }

  lemma FoundSlotsAt(g: Geometry, s: State, t: nat, u: nat)
    requires Inv(g, s) && t < |s.walks| && u < |s.walks| && s.walks[t].phase.Found? && s.walks[u].phase.Found?
    ensures var v, w := s.walks[t], s.walks[u];
            var a, b := Address(g, v.hash), Address(g, w.hash);
      && a[..g.Depth()] in s.at && s.at[a[..g.Depth()]] == v.phase.n && v.phase.n in s.m.buckets
      && ((v.phase.n, a[g.Depth()]) == (w.phase.n, b[g.Depth()]) <==> v.hash == w.hash)
  {
    var v, w := s.walks[t], s.walks[u];
    assert WalkOk(g, s.m, s.at, v) && WalkOk(g, s.m, s.at, w);
    WalkEnds(g, s.m, s.at, Address(g, v.hash), g.Depth());
    if v.hash != w.hash { SlotsDistinct(g, s.m, s.at, v.hash, w.hash); }
  }

  /** In every run from the empty tree, a call that found its page found the one that lookup finds, a page of
      buckets; calls have the same bucket if and only if they have the same hash.
   */
  lemma FoundSlots(g: Geometry, s: State, run: seq<Step>, t: nat, u: nat)
    requires g.Valid() && Init(g, s) && Runs(g, s, run)
    ensures var s' := End(g, s, run);
      t < |s'.walks| && u < |s'.walks| && s'.walks[t].phase.Found? && s'.walks[u].phase.Found? ==>
        var v, w := s'.walks[t], s'.walks[u];
        var a, b := Address(g, v.hash), Address(g, w.hash);
        && a[..g.Depth()] in s'.at && s'.at[a[..g.Depth()]] == v.phase.n && v.phase.n in s'.m.buckets
        && ((v.phase.n, a[g.Depth()]) == (w.phase.n, b[g.Depth()]) <==> v.hash == w.hash)
  {
    InitInv(g, s);
    InvRun(g, s, run);
    hide Inv, Address;
    var s' := End(g, s, run);
    if t < |s'.walks| && u < |s'.walks| && s'.walks[t].phase.Found? && s'.walks[u].phase.Found? {
      FoundSlotsAt(g, s', t, u);
    }
  }

  /** When all calls of a run from the empty tree are over, no page is lost: each one allocated is in the tree, or
      was freed, once.
   */
  lemma NothingLeaks(g: Geometry, s: State, run: seq<Step>)
    requires g.Valid() && Init(g, s) && Runs(g, s, run)
    requires forall t :: 0 <= t < |End(g, s, run).walks| ==> End(g, s, run).walks[t].Over()
    ensures var s' := End(g, s, run);
      && (forall p: nat :: p < s'.m.nextPage <==> p in s'.at.Values || p in s'.freed)
      && (forall p :: p in s'.freed ==> p !in s'.at.Values) && NoDup(s'.freed)
  {
    InitInv(g, s);
    InvRun(g, s, run);
    NothingLeaksAt(g, End(g, s, run));
  }

  lemma NothingLeaksAt(g: Geometry, s: State)
    requires Inv(g, s) && forall t :: 0 <= t < |s.walks| ==> s.walks[t].Over()
    ensures forall p: nat :: p < s.m.nextPage <==> p in s.at.Values || p in s.freed
    ensures (forall p :: p in s.freed ==> p !in s.at.Values) && NoDup(s.freed)
  {
    forall p: nat ensures p < s.m.nextPage <==> p in s.at.Values || p in s.freed {
      assert PageAccounted(s, p) && !Owned(s.walks, p);
    }
    forall p | p in s.freed ensures p !in s.at.Values { assert PageAccounted(s, p); }
  }

  /** No call has failed, or goes on without a page it asked for. */
  predicate Supplied(s: State) {
    forall t :: 0 <= t < |s.walks| ==> var ph := s.walks[t].phase; !ph.Failed? && (ph.Swap? ==> ph.page.Some?)
  }

  /** A call fails only if it got no memory and nobody else filled the word before its cmpxchg; */
  lemma FailStep(g: Geometry, s: State, a: Step)
    requires Inv(g, s) && Enabled(s, a)
    ensures var w := s.walks[a.t];
      After(g, s, a).walks[a.t].phase.Failed? <==>
      w.phase.Swap? && w.phase.page.None? && Word(s, w.phase.n, Index(g, w)).None?
  {
    WordAt(g, s, a.t);
    assert WalkOk(g, s.m, s.at, s.walks[a.t]);
    hide WellFormed, Address, Accounted, AllOk, Index, Word, Way;
  }

  lemma {:induction false} SuppliedRun(g: Geometry, s: State, run: seq<Step>)
    requires Inv(g, s) && Runs(g, s, run) && Supplied(s) && forall a :: a in run ==> a.ok
    ensures Supplied(End(g, s, run))
    decreases |run|
  {
    assert g.Valid();
    hide Inv;
    if run != [] {
      var a := run[0];
      InvStep(g, s, a);
      FailStep(g, s, a);
      var s1 := After(g, s, a);
      assert a.ok && Supplied(s1);
      forall b | b in run[1..] ensures b.ok { assert b in run; }
      SuppliedRun(g, s1, run[1..]);
    }
  }

  /** if memory can always be had, no call of a run from the empty tree fails. */
  lemma NoneFails(g: Geometry, s: State, run: seq<Step>)
    requires g.Valid() && Init(g, s) && Runs(g, s, run) && forall a :: a in run ==> a.ok
    ensures forall t :: 0 <= t < |End(g, s, run).walks| ==> !End(g, s, run).walks[t].phase.Failed?
  {
    InitInv(g, s);
    SuppliedRun(g, s, run);
    assert Supplied(End(g, s, run));
  }

  /** Steps that a call still has before it, at most. */
  function Left(g: Geometry, w: Walk): nat
    requires g.Valid()
  {
    var rank :=
      match w.phase
      case Load(_) => 5
      case Create(_) => 4
      case Swap(_, _) => 3
      case Release(_, _) => 2
      case _ => 1;
    if w.Over() || w.depth >= g.Depth() then 0 else 5 * (g.Depth() - w.depth - 1) + rank
  }

  /** No call waits for another, and each is over after at most five steps of its own for every page. */
  lemma EndsInSteps(g: Geometry, s: State, a: Step)
    requires Inv(g, s) && Enabled(s, a)
    ensures Left(g, After(g, s, a).walks[a.t]) < Left(g, s.walks[a.t]) <= 5 * g.Depth()
    ensures forall u :: 0 <= u < |s.walks| && u != a.t ==> After(g, s, a).walks[u] == s.walks[u]
  {
    WordAt(g, s, a.t);
    hide WellFormed, Address, Accounted, AllOk, Index, Word, Way;
  }
}
