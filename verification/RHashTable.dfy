/** The resizable hash table under concurrency (compat/lib-rhashtable.c:213-349, 487-627).

    A state machine with one step for each store, lock operation or read of `future_tbl`, run by
    one rehash worker (which holds `ht->mutex`) and any number of inserters, in any interleaving,
    sequentially consistent. Lookups under a bucket lock are one step, since nothing else may
    change that chain meanwhile. Tables are numbered along `future_tbl`: table t + 1 is the future
    of table t, and `cur` is `ht->tbl`.
 */
module RHashTable {

  type Elem = nat
  type Key = int

  datatype Option<+T> = None | Some(value: T)
  datatype Ptr = Nulls | To(e: Elem)
  datatype Bucket = Bucket(t: nat, i: nat)
  datatype Owner = Free | Worker | By(tid: nat)
  datatype Table = Table(size: nat, nest: bool)

  /** `key` is fixed for each object; `hash` gives the bucket of a key in a table. */
  datatype Params = Params(key: Elem -> Key, hash: (nat, Key) -> nat)

  /** Where the rehash worker is, in terms of what it does next. */
  datatype WorkerPc =
    | Idle
    | Scan(i: nat)                                                    // lock old bucket i
    | Locked(i: nat)                                                  // find the last entry of bucket i
    | Chosen(i: nat, target: nat, e: Elem, pprev: Option<Elem>)       // lock the new bucket
    | LinkNext(i: nat, target: nat, e: Elem, pprev: Option<Elem>)     // entry->next = head
    | LinkHead(i: nat, target: nat, e: Elem, pprev: Option<Elem>)     // new bucket = entry, unlock
    | Unlink(i: nat, target: nat, e: Elem, pprev: Option<Elem>)       // *pprev = next, or old bucket = next

  /** Where an insertion is: the table it looks at, and what it does next there. */
  datatype InsertPc = Enter | Lookup | Decide | Fill | Store | Release

  datatype Inserter = Inserter(obj: Elem, t: nat, pc: InsertPc)

  datatype State = State(
    tables: seq<Table>, cur: nat,
    head: map<Bucket, Ptr>, next: map<Elem, Ptr>,
    lock: map<Bucket, Owner>, pages: set<Bucket>,
    worker: WorkerPc, threads: map<nat, Inserter>,
    inserted: set<Elem>)

  function Head(s: State, b: Bucket): Ptr { if b in s.head then s.head[b] else Nulls }
  function Next(next: map<Elem, Ptr>, e: Elem): Ptr { if e in next then next[e] else Nulls }
  function Lock(s: State, b: Bucket): Owner { if b in s.lock then s.lock[b] else Free }
  function Hash(p: Params, t: nat, k: Key): nat { p.hash(t, k) }
  function At(p: Params, t: nat, e: Elem): Bucket { Bucket(t, Hash(p, t, p.key(e))) }

  /** A bucket of a nested table has no memory until some insertion asks for it. */
  predicate Present(s: State, b: Bucket)
    requires b.t < |s.tables|
  {
    !s.tables[b.t].nest || b in s.pages
  }

  // ----- chains of pointers -----

  /** Following `next` from `p` visits exactly `c` and then stands at `end`. */
  predicate Follows(next: map<Elem, Ptr>, p: Ptr, c: seq<Elem>, end: Ptr)
    decreases |c|
  {
    if c == [] then p == end else p == To(c[0]) && Follows(next, Next(next, c[0]), c[1..], end)
  }

  /** `e` is met when following pointers from `p`. */
  ghost predicate Meets(next: map<Elem, Ptr>, p: Ptr, e: Elem) {
    exists c :: Follows(next, p, c, To(e))
  }

  // ----- steps -----

  datatype Step =
    | Attach(size: nat, nest: bool)
    | AddPage(b: Bucket)
    | WStart | WLock | WSkip | WChoose(e: Elem, pprev: Option<Elem>) | WDrained | WNested
    | WLockNew | WLinkNext | WLinkHead | WUnlink | WPublish
    | IBegin(tid: nat, obj: Elem) | ISkip(tid: nat) | ILock(tid: nat)
    | IExists(tid: nat, e: Elem) | IAbsent(tid: nat) | IForward(tid: nat) | IGiveUp(tid: nat)
    | ICommit(tid: nat) | IFill(tid: nat) | IStore(tid: nat) | IRelease(tid: nat)

  ghost predicate Enabled(p: Params, s: State, a: Step)
    requires s.cur < |s.tables|
  {
    var n := |s.tables|;
    match a
    // cmpxchg of future_tbl succeeds only at the last table
    case Attach(size, _) => forall k :: Hash(p, n, k) < size
    case AddPage(b) => b.t < n
    case WStart => s.worker.Idle? && s.cur + 1 < n
    case WLock =>
      s.worker.Scan? && s.worker.i < s.tables[s.cur].size &&
      Present(s, Bucket(s.cur, s.worker.i)) && Lock(s, Bucket(s.cur, s.worker.i)) == Free
    case WSkip =>
      s.worker.Scan? && s.worker.i < s.tables[s.cur].size && !Present(s, Bucket(s.cur, s.worker.i))
    case WChoose(e, pprev) =>
      s.worker.Locked? && !s.tables[n - 1].nest &&
      Meets(s.next, Head(s, Bucket(s.cur, s.worker.i)), e) && Next(s.next, e) == Nulls &&
      if pprev.None? then Head(s, Bucket(s.cur, s.worker.i)) == To(e)
      else Meets(s.next, Head(s, Bucket(s.cur, s.worker.i)), pprev.value) && Next(s.next, pprev.value) == To(e)
    case WDrained => s.worker.Locked? && !s.tables[n - 1].nest && Head(s, Bucket(s.cur, s.worker.i)) == Nulls
    case WNested => s.worker.Locked? && s.tables[n - 1].nest
    case WLockNew => s.worker.Chosen? && Lock(s, At(p, s.worker.target, s.worker.e)) == Free
    case WLinkNext => s.worker.LinkNext?
    case WLinkHead => s.worker.LinkHead?
    case WUnlink => s.worker.Unlink?
    case WPublish => s.worker.Scan? && s.worker.i == s.tables[s.cur].size && s.cur + 1 < n
    case IBegin(tid, obj) =>
      tid !in s.threads && obj !in s.inserted &&
      forall o :: o in s.threads ==> s.threads[o].obj != obj
    case ISkip(tid) =>
      InPc(s, tid, Enter) && s.threads[tid].t + 1 < n && !Present(s, At(p, s.threads[tid].t, s.threads[tid].obj))
    case ILock(tid) =>
      InPc(s, tid, Enter) && s.threads[tid].t < n &&
      Present(s, At(p, s.threads[tid].t, s.threads[tid].obj)) &&
      Lock(s, At(p, s.threads[tid].t, s.threads[tid].obj)) == Free
    case IExists(tid, e) =>
      InPc(s, tid, Lookup) && p.key(e) == p.key(s.threads[tid].obj) &&
      Meets(s.next, Head(s, At(p, s.threads[tid].t, s.threads[tid].obj)), e)
    case IAbsent(tid) =>
      InPc(s, tid, Lookup) &&
      forall e :: Meets(s.next, Head(s, At(p, s.threads[tid].t, s.threads[tid].obj)), e) ==>
        p.key(e) != p.key(s.threads[tid].obj)
    case IForward(tid) => InPc(s, tid, Decide) && s.threads[tid].t + 1 < n
    case IGiveUp(tid) => InPc(s, tid, Decide) && s.threads[tid].t + 1 == n
    case ICommit(tid) => InPc(s, tid, Decide) && s.threads[tid].t + 1 == n
    case IFill(tid) => InPc(s, tid, Fill)
    case IStore(tid) => InPc(s, tid, Store)
    case IRelease(tid) => InPc(s, tid, Release)
  }

  predicate InPc(s: State, tid: nat, pc: InsertPc) {
    tid in s.threads && s.threads[tid].pc == pc
  }

  function Move(s: State, tid: nat, pc: InsertPc): map<nat, Inserter>
    requires tid in s.threads
  {
    s.threads[tid := s.threads[tid].(pc := pc)]
  }

  function After(p: Params, s: State, a: Step): State
    requires s.cur < |s.tables| && Enabled(p, s, a)
  {
    match a
    case Attach(size, nest) => s.(tables := s.tables + [Table(size, nest)])
    case AddPage(b) => s.(pages := s.pages + {b})
    case WStart => s.(worker := Scan(0))
    case WLock =>
      s.(lock := s.lock[Bucket(s.cur, s.worker.i) := Worker], worker := Locked(s.worker.i))
    case WSkip => s.(worker := Scan(s.worker.i + 1))
    case WChoose(e, pprev) => s.(worker := Chosen(s.worker.i, |s.tables| - 1, e, pprev))
    case WDrained =>
      s.(lock := s.lock[Bucket(s.cur, s.worker.i) := Free], worker := Scan(s.worker.i + 1))
    case WNested => s.(lock := s.lock[Bucket(s.cur, s.worker.i) := Free], worker := Idle)
    case WLockNew =>
      s.(lock := s.lock[At(p, s.worker.target, s.worker.e) := Worker],
         worker := LinkNext(s.worker.i, s.worker.target, s.worker.e, s.worker.pprev))
    case WLinkNext =>
      s.(next := s.next[s.worker.e := Head(s, At(p, s.worker.target, s.worker.e))],
         worker := LinkHead(s.worker.i, s.worker.target, s.worker.e, s.worker.pprev))
    case WLinkHead =>
      s.(head := s.head[At(p, s.worker.target, s.worker.e) := To(s.worker.e)],
         lock := s.lock[At(p, s.worker.target, s.worker.e) := Free],
         worker := Unlink(s.worker.i, s.worker.target, s.worker.e, s.worker.pprev))
    case WUnlink =>
      var s' := s.(worker := Locked(s.worker.i));
      if s.worker.pprev.Some? then s'.(next := s.next[s.worker.pprev.value := Nulls])
      else s'.(head := s.head[Bucket(s.cur, s.worker.i) := Nulls])
    case WPublish => s.(cur := s.cur + 1, worker := Idle)
    case IBegin(tid, obj) => s.(threads := s.threads[tid := Inserter(obj, s.cur, Enter)])
    case ISkip(tid) => s.(threads := s.threads[tid := s.threads[tid].(t := s.threads[tid].t + 1)])
    case ILock(tid) =>
      s.(lock := s.lock[At(p, s.threads[tid].t, s.threads[tid].obj) := By(tid)], threads := Move(s, tid, Lookup))
    case IExists(tid, _) =>
      s.(lock := s.lock[At(p, s.threads[tid].t, s.threads[tid].obj) := Free], threads := s.threads - {tid})
    case IAbsent(tid) => s.(threads := Move(s, tid, Decide))
    case IForward(tid) =>
      s.(lock := s.lock[At(p, s.threads[tid].t, s.threads[tid].obj) := Free],
         threads := s.threads[tid := Inserter(s.threads[tid].obj, s.threads[tid].t + 1, Enter)])
    case IGiveUp(tid) =>
      s.(lock := s.lock[At(p, s.threads[tid].t, s.threads[tid].obj) := Free], threads := s.threads - {tid})
    case ICommit(tid) => s.(threads := Move(s, tid, Fill))
    case IFill(tid) =>
      s.(next := s.next[s.threads[tid].obj := Head(s, At(p, s.threads[tid].t, s.threads[tid].obj))],
         threads := Move(s, tid, Store))
    case IStore(tid) =>
      s.(head := s.head[At(p, s.threads[tid].t, s.threads[tid].obj) := To(s.threads[tid].obj)],
         inserted := s.inserted + {s.threads[tid].obj},
         threads := Move(s, tid, Release))
    case IRelease(tid) =>
      s.(lock := s.lock[At(p, s.threads[tid].t, s.threads[tid].obj) := Free], threads := s.threads - {tid})
  }

  // ----- the invariant -----

  /** Ghost view: the chain of each bucket and the table each inserted element is in. */
  datatype View = View(chain: map<Bucket, seq<Elem>>, loc: map<Elem, nat>)

  function Chain(v: View, b: Bucket): seq<Elem> { if b in v.chain then v.chain[b] else [] }

  predicate NoDup(c: seq<Elem>) { forall i, j :: 0 <= i < j < |c| ==> c[i] != c[j] }

  /** What a chain ends in: a nulls marker, unless its last entry is just being moved. */
  function End(p: Params, s: State, b: Bucket): Ptr {
    if s.worker.LinkHead? && b == Bucket(s.cur, s.worker.i) then Head(s, At(p, s.worker.target, s.worker.e))
    else if s.worker.Unlink? && b == Bucket(s.cur, s.worker.i) then To(s.worker.e)
    else Nulls
  }

  function Last(c: seq<Elem>): Option<Elem> { if c == [] then None else Some(c[|c| - 1]) }

  predicate Located(p: Params, s: State, v: View, e: Elem)
    requires e in v.loc
  {
    && e in Chain(v, At(p, v.loc[e], e))
    && s.cur <= v.loc[e] < |s.tables| && Present(s, At(p, v.loc[e], e))
  }

  predicate Homed(p: Params, v: View, b: Bucket) {
    && NoDup(Chain(v, b))
    && forall e :: e in Chain(v, b) ==> e in v.loc && b == At(p, v.loc[e], e)
  }

  ghost predicate HashesOk(p: Params, s: State) {
    forall t, k :: 0 <= t < |s.tables| ==> Hash(p, t, k) < s.tables[t].size
  }

  ghost predicate ChainsOk(p: Params, s: State, v: View) {
    && v.loc.Keys == s.inserted
    && (forall e :: e in v.loc ==> Located(p, s, v, e))
    && (forall b :: Homed(p, v, b))
  }

  predicate LinkOk(p: Params, s: State, v: View, b: Bucket) {
    Follows(s.next, Head(s, b), Chain(v, b), End(p, s, b))
  }

  ghost predicate LinksOk(p: Params, s: State, v: View) {
    forall b :: LinkOk(p, s, v, b)
  }

  /** Buckets below this index of the current table have been drained. */
  function Progress(s: State): nat { if s.worker.Idle? then 0 else s.worker.i }

  ghost predicate WorkerOk(p: Params, s: State, v: View) {
    && (!s.worker.Idle? ==>
          && s.cur + 1 < |s.tables| && s.worker.i <= s.tables[s.cur].size
          && forall j :: 0 <= j < s.worker.i ==> Chain(v, Bucket(s.cur, j)) == [])
    && (!s.worker.Idle? && !s.worker.Scan? ==>
          s.worker.i < s.tables[s.cur].size && Lock(s, Bucket(s.cur, s.worker.i)) == Worker)
    && (s.worker.Chosen? || s.worker.LinkNext? || s.worker.LinkHead? || s.worker.Unlink? ==>
          s.cur < s.worker.target < |s.tables| && !s.tables[s.worker.target].nest)
    && (s.worker.Chosen? || s.worker.LinkNext? || s.worker.LinkHead? ==>
          var c := Chain(v, Bucket(s.cur, s.worker.i));
          c != [] && c[|c| - 1] == s.worker.e && s.worker.pprev == Last(c[..|c| - 1]))
    && (s.worker.LinkNext? || s.worker.LinkHead? ==> Lock(s, At(p, s.worker.target, s.worker.e)) == Worker)
    && (s.worker.Unlink? ==>
          && s.worker.pprev == Last(Chain(v, Bucket(s.cur, s.worker.i)))
          && s.worker.e in v.loc && v.loc[s.worker.e] == s.worker.target)
  }

  predicate Holding(i: Inserter) { i.pc != Enter }
  predicate Committed(i: Inserter) { i.pc == Fill || i.pc == Store }

  predicate ThreadOk(p: Params, s: State, o: nat)
    requires o in s.threads
  {
    var i := s.threads[o];
    && i.t < |s.tables|
    && (i.pc != Release ==> i.obj !in s.inserted)
    && (Holding(i) ==> Lock(s, At(p, i.t, i.obj)) == By(o) && Present(s, At(p, i.t, i.obj)))
    && (Committed(i) ==> s.cur <= i.t && (i.t == s.cur ==> Progress(s) <= Hash(p, i.t, p.key(i.obj))))
    && (i.pc == Store ==> Next(s.next, i.obj) == Head(s, At(p, i.t, i.obj)))
  }

  ghost predicate ThreadsOk(p: Params, s: State) {
    forall o :: o in s.threads ==> ThreadOk(p, s, o)
  }

  ghost predicate ObjectsOk(s: State) {
    forall o, q :: o in s.threads && q in s.threads && o != q ==> s.threads[o].obj != s.threads[q].obj
  }

  /** What an insertion knows about an inserted element with its own key. */
  predicate Ruled(p: Params, s: State, v: View, o: nat, e: Elem)
    requires o in s.threads && e in v.loc
  {
    var i := s.threads[o];
    i.pc != Release && p.key(e) == p.key(i.obj) ==>
      i.t <= v.loc[e] && (i.pc == Decide ==> i.t < v.loc[e]) && !Committed(i)
  }

  /** No insertion of the same key has gone past one that is about to store. */
  predicate Behind(p: Params, s: State, o: nat, q: nat)
    requires o in s.threads && q in s.threads
  {
    Committed(s.threads[o]) && s.threads[q].pc != Release && p.key(s.threads[q].obj) == p.key(s.threads[o].obj) ==>
      s.threads[q].t <= s.threads[o].t
  }

  ghost predicate KeysOk(p: Params, s: State, v: View) {
    && (forall e, f :: e in v.loc && f in v.loc && e != f ==> p.key(e) != p.key(f))
    && (forall o, e :: o in s.threads && e in v.loc ==> Ruled(p, s, v, o, e))
    && (forall o, q :: o in s.threads && q in s.threads ==> Behind(p, s, o, q))
  }

  ghost predicate Inv(p: Params, s: State, v: View) {
    && s.cur < |s.tables|
    && HashesOk(p, s) && ChainsOk(p, s, v) && LinksOk(p, s, v) && WorkerOk(p, s, v)
    && ThreadsOk(p, s) && ObjectsOk(s) && KeysOk(p, s, v)
  }

  /** How the ghost view follows a step: only the two head stores move elements. */
  function Track(p: Params, s: State, v: View, a: Step): View
    requires s.cur < |s.tables| && Enabled(p, s, a)
  {
    match a
    case IStore(tid) =>
      var i := s.threads[tid];
      View(v.chain[At(p, i.t, i.obj) := [i.obj] + Chain(v, At(p, i.t, i.obj))], v.loc[i.obj := i.t])
    case WLinkHead =>
      var source, e := Bucket(s.cur, s.worker.i), s.worker.e;
      var dest, c := At(p, s.worker.target, e), Chain(v, source);
      View(v.chain[source := if c == [] then [] else c[..|c| - 1]][dest := [e] + Chain(v, dest)],
           v.loc[e := s.worker.target])
    case _ => v
  }

  // ----- facts about chains -----

  lemma {:induction false} FollowsMeets(next: map<Elem, Ptr>, p: Ptr, c: seq<Elem>, end: Ptr, e: Elem)
    requires Follows(next, p, c, end) && e in c
    ensures Meets(next, p, e)
    decreases |c|
  {
    if e == c[0] {
      assert Follows(next, p, [], To(e));
    } else {
      FollowsMeets(next, Next(next, c[0]), c[1..], end, e);
      var d :| Follows(next, Next(next, c[0]), d, To(e));
      assert ([c[0]] + d)[1..] == d;
      assert Follows(next, p, [c[0]] + d, To(e));
    }
  }

  /** A chain that ends in a nulls marker holds everything its pointers meet. */
  lemma {:induction false} MeetsFollows(next: map<Elem, Ptr>, p: Ptr, c: seq<Elem>, e: Elem)
    requires Follows(next, p, c, Nulls) && Meets(next, p, e)
    ensures e in c
  {
    var d :| Follows(next, p, d, To(e));
    MeetsAlong(next, p, c, d, e);
  }

  lemma {:induction false} MeetsAlong(next: map<Elem, Ptr>, p: Ptr, c: seq<Elem>, d: seq<Elem>, e: Elem)
    requires Follows(next, p, c, Nulls) && Follows(next, p, d, To(e))
    ensures e in c
    decreases |d|
  {
    if d != [] { MeetsAlong(next, Next(next, c[0]), c[1..], d[1..], e); }
  }

  lemma {:induction false} FollowsElsewhere(next: map<Elem, Ptr>, p: Ptr, c: seq<Elem>, end: Ptr, x: Elem, q: Ptr)
    requires Follows(next, p, c, end) && x !in c
    ensures Follows(next[x := q], p, c, end)
    decreases |c|
  {
    if c != [] { FollowsElsewhere(next, Next(next, c[0]), c[1..], end, x, q); }
  }

  /** Overwriting the pointer of the last entry changes what the chain ends in, nothing else. */
  lemma {:induction false} FollowsRelink(next: map<Elem, Ptr>, p: Ptr, c: seq<Elem>, end: Ptr, q: Ptr)
    requires Follows(next, p, c, end) && c != [] && NoDup(c)
    ensures Follows(next[c[|c| - 1] := q], p, c, q)
    ensures Next(next, c[|c| - 1]) == end
    ensures Follows(next, p, c[..|c| - 1], To(c[|c| - 1]))
    decreases |c|
  {
    var x := c[|c| - 1];
    if |c| > 1 {
      assert c[1..][..|c| - 2] == c[..|c| - 1][1..];
      FollowsRelink(next, Next(next, c[0]), c[1..], end, q);
    }
  }

  /** The entry whose pointer is a nulls marker is the last one. */
  lemma {:induction false} FollowsLast(next: map<Elem, Ptr>, p: Ptr, c: seq<Elem>, e: Elem, q: Ptr)
    requires Follows(next, p, c, Nulls) && e in c && NoDup(c) && Next(next, e) == q
    ensures q == Nulls <==> c[|c| - 1] == e
    ensures forall x :: q == To(x) && c[|c| - 1] == x ==> |c| >= 2 && c[|c| - 2] == e
    decreases |c|
  {
    if c[0] != e {
      FollowsLast(next, Next(next, c[0]), c[1..], e, q);
    }
  }

  // ----- every step keeps the invariant -----

  predicate ByWorker(a: Step) {
    a.WStart? || a.WLock? || a.WSkip? || a.WChoose? || a.WDrained? || a.WNested? || a.WLockNew? ||
    a.WLinkNext? || a.WLinkHead? || a.WUnlink? || a.WPublish?
  }

  predicate ByInserter(a: Step) { !ByWorker(a) && !a.Attach? && !a.AddPage? }

  /** The elements whose pointers the worker is about to overwrite are in the bucket it holds. */
  predicate Moving(p: Params, s: State, v: View) {
    && v.loc.Keys == s.inserted
    && (s.worker.Chosen? || s.worker.LinkNext? || s.worker.LinkHead? ==>
          && s.worker.e in v.loc && v.loc[s.worker.e] == s.cur
          && Bucket(s.cur, s.worker.i) == At(p, s.cur, s.worker.e))
    && (s.worker.Unlink? && s.worker.pprev.Some? ==>
          && s.worker.pprev.value in v.loc && v.loc[s.worker.pprev.value] == s.cur
          && Bucket(s.cur, s.worker.i) == At(p, s.cur, s.worker.pprev.value))
  }

  lemma MovingFacts(p: Params, s: State, v: View)
    requires ChainsOk(p, s, v) && WorkerOk(p, s, v)
    ensures Moving(p, s, v)
  {
    if !s.worker.Idle? { assert Homed(p, v, Bucket(s.cur, s.worker.i)); }
  }

  /** Tables and pages are only added, and but for the worker's last step the current table stays. */
  lemma TablesGrow(p: Params, s: State, a: Step)
    requires s.cur < |s.tables| && Enabled(p, s, a)
    ensures var s' := After(p, s, a);
      s.tables <= s'.tables && s.pages <= s'.pages && (a.WPublish? || s'.cur == s.cur)
  {
    hide Meets;
  }

  lemma ThreadsKept(p: Params, s: State, a: Step)
    requires s.cur < |s.tables| && Enabled(p, s, a) && !ByInserter(a)
    ensures After(p, s, a).threads == s.threads
  {
    hide Meets;
  }

  lemma ObjectsStep(p: Params, s: State, a: Step)
    requires s.cur < |s.tables| && ObjectsOk(s) && Enabled(p, s, a)
    ensures ObjectsOk(After(p, s, a))
  {
    if ByInserter(a) {
      hide Meets;
    } else {
      ThreadsKept(p, s, a);
      hide After, Enabled;
    }
  }

  predicate PointerStore(a: Step) { a.WLinkNext? || a.WLinkHead? || a.WUnlink? }

  lemma ThreadDuringMove(p: Params, s: State, v: View, a: Step, o: nat)
    requires s.cur < |s.tables| && Moving(p, s, v) && WorkerOk(p, s, v) && Enabled(p, s, a)
    requires PointerStore(a) && o in s.threads && ThreadOk(p, s, o)
    ensures ThreadOk(p, After(p, s, a), o)
  {}

  lemma ThreadDuringWorker(p: Params, s: State, v: View, a: Step, o: nat)
    requires HashesOk(p, s) && s.cur < |s.tables| && WorkerOk(p, s, v) && Enabled(p, s, a)
    requires !ByInserter(a) && !PointerStore(a) && o in s.threads && ThreadOk(p, s, o)
    ensures ThreadOk(p, After(p, s, a), o)
  {
    var s', i := After(p, s, a), s.threads[o];
    var b := At(p, i.t, i.obj);
    assert Hash(p, i.t, p.key(i.obj)) < s.tables[i.t].size;
    assert Holding(i) ==> Lock(s', b) == By(o) && Present(s', b);
    assert s'.next == s.next && s'.head == s.head && s'.inserted == s.inserted && s'.threads == s.threads;
    if Committed(i) && i.t == s.cur {
      assert Progress(s) <= b.i;
      assert a.WSkip? || a.WDrained? ==> b != Bucket(s.cur, s.worker.i);
    }
  }

  lemma ThreadDuringOther(p: Params, s: State, a: Step, o: nat)
    requires s.cur < |s.tables| && Enabled(p, s, a) && ObjectsOk(s)
    requires ByInserter(a) && o in s.threads && o != a.tid && ThreadOk(p, s, o)
    requires a.tid in s.threads ==> ThreadOk(p, s, a.tid)
    ensures o in After(p, s, a).threads && ThreadOk(p, After(p, s, a), o)
  {
    hide Meets;
  }

  lemma ThreadSelf(p: Params, s: State, v: View, a: Step)
    requires s.cur < |s.tables| && WorkerOk(p, s, v) && Enabled(p, s, a)
    requires ByInserter(a) && (a.tid in s.threads ==> ThreadOk(p, s, a.tid))
    ensures a.tid in After(p, s, a).threads ==> ThreadOk(p, After(p, s, a), a.tid)
  {
  }

  // ----- keys -----

  lemma RuledDuringInsert(p: Params, s: State, v: View, a: Step, o: nat, e: Elem)
    requires e in v.loc
    requires s.cur < |s.tables| && Located(p, s, v, e) && Enabled(p, s, a)
    requires o in s.threads && ThreadOk(p, s, o) && Ruled(p, s, v, o, e)
    requires ByInserter(a) && !a.IStore? && !a.IBegin? && o in After(p, s, a).threads
    requires a.IAbsent? && o == a.tid && p.key(e) == p.key(s.threads[o].obj) ==> s.threads[o].t < v.loc[e]
    ensures Ruled(p, After(p, s, a), v, o, e)
  {}

  lemma RuledStep(p: Params, s: State, v: View, a: Step, o: nat, e: Elem)
    requires e in v.loc
    requires s.cur < |s.tables| && Moving(p, s, v) && WorkerOk(p, s, v) && Located(p, s, v, e) && Enabled(p, s, a)
    requires o in s.threads && ThreadOk(p, s, o) && Ruled(p, s, v, o, e)
    requires !a.IStore? && !a.IBegin? && o in After(p, s, a).threads
    requires a.IAbsent? && o == a.tid && p.key(e) == p.key(s.threads[o].obj) ==> s.threads[o].t < v.loc[e]
    ensures Ruled(p, After(p, s, a), Track(p, s, v, a), o, e)
  {
    if ByInserter(a) {
      RuledDuringInsert(p, s, v, a, o, e);
    } else {
      ThreadsKept(p, s, a);
      hide After, Enabled;
    }
  }

  lemma BehindStep(p: Params, s: State, v: View, a: Step, o: nat, q: nat)
    requires s.cur < |s.tables| && Enabled(p, s, a) && !a.IBegin?
    requires o in s.threads && q in s.threads && ThreadOk(p, s, o) && ThreadOk(p, s, q) && Behind(p, s, o, q)
    requires o in After(p, s, a).threads && q in After(p, s, a).threads
    ensures Behind(p, After(p, s, a), o, q)
  {
    if !ByInserter(a) {
      assert After(p, s, a).threads == s.threads;
    } else if a.tid != o && a.tid != q {
      assert After(p, s, a).threads[o] == s.threads[o] && After(p, s, a).threads[q] == s.threads[q];
    }
  }

  lemma KeysBegin(p: Params, s: State, v: View, a: Step)
    requires s.cur < |s.tables| && ChainsOk(p, s, v) && ThreadsOk(p, s) && KeysOk(p, s, v)
    requires Enabled(p, s, a) && a.IBegin?
    ensures KeysOk(p, After(p, s, a), v)
  {
    var s' := After(p, s, a);
    forall o, e | o in s'.threads && e in v.loc ensures Ruled(p, s', v, o, e) {
      assert Located(p, s, v, e) && (o != a.tid ==> Ruled(p, s, v, o, e));
    }
    forall o, q | o in s'.threads && q in s'.threads ensures Behind(p, s', o, q) {
      assert o != a.tid ==> ThreadOk(p, s, o) && (q != a.tid ==> Behind(p, s, o, q));
    }
  }

  lemma KeysStore(p: Params, s: State, v: View, a: Step)
    requires s.cur < |s.tables| && ChainsOk(p, s, v) && ThreadsOk(p, s) && KeysOk(p, s, v) && ObjectsOk(s)
    requires Enabled(p, s, a) && a.IStore?
    ensures KeysOk(p, After(p, s, a), Track(p, s, v, a))
  {
    hide Meets;
    var s', v' := After(p, s, a), Track(p, s, v, a);
    RuledStore(p, s, v, a);
    forall e, f | e in v'.loc && f in v'.loc && e != f ensures p.key(e) != p.key(f) {
      if e in v.loc { assert Ruled(p, s, v, a.tid, e); }
      if f in v.loc { assert Ruled(p, s, v, a.tid, f); }
    }
    forall o, q | o in s'.threads && q in s'.threads ensures Behind(p, s', o, q) {
      assert Behind(p, s, o, q);
    }
  }

  lemma RuledStore(p: Params, s: State, v: View, a: Step)
    requires s.cur < |s.tables| && ChainsOk(p, s, v) && ThreadsOk(p, s) && KeysOk(p, s, v) && ObjectsOk(s)
    requires Enabled(p, s, a) && a.IStore?
    ensures var s', v' := After(p, s, a), Track(p, s, v, a);
      forall o, e :: o in s'.threads && e in v'.loc ==> Ruled(p, s', v', o, e)
  {
    hide Meets;
    var s', v' := After(p, s, a), Track(p, s, v, a);
    forall o, e | o in s'.threads && e in v'.loc ensures Ruled(p, s', v', o, e) {
      assert Behind(p, s, a.tid, o) && Behind(p, s, o, a.tid);
      if e != s.threads[a.tid].obj { assert Ruled(p, s, v, o, e); }
    }
  }

  lemma SameKeys(p: Params, s: State, v: View, a: Step)
    requires s.cur < |s.tables| && Moving(p, s, v) && Enabled(p, s, a) && !a.IBegin? && !a.IStore?
    ensures After(p, s, a).threads.Keys <= s.threads.Keys && Track(p, s, v, a).loc.Keys == v.loc.Keys
  {
    if ByInserter(a) {
      hide Meets;
    } else {
      ThreadsKept(p, s, a);
      hide After, Enabled, Chain;
    }
  }

  lemma KeysStep(p: Params, s: State, v: View, a: Step)
    requires s.cur < |s.tables| && ChainsOk(p, s, v) && WorkerOk(p, s, v)
    requires ThreadsOk(p, s) && ObjectsOk(s) && KeysOk(p, s, v)
    requires Enabled(p, s, a)
    requires a.IAbsent? ==>
      forall e :: e in v.loc && p.key(e) == p.key(s.threads[a.tid].obj) ==> s.threads[a.tid].t < v.loc[e]
    ensures KeysOk(p, After(p, s, a), Track(p, s, v, a))
  {
    if a.IBegin? {
      KeysBegin(p, s, v, a);
    } else if a.IStore? {
      KeysStore(p, s, v, a);
    } else {
      var s', v' := After(p, s, a), Track(p, s, v, a);
      MovingFacts(p, s, v);
      SameKeys(p, s, v, a);
      hide After, Track, Ruled, Behind, WorkerOk, Moving;
      forall o, e | o in s'.threads && e in v'.loc ensures Ruled(p, s', v', o, e) {
        RuledStep(p, s, v, a, o, e);
      }
      forall o, q | o in s'.threads && q in s'.threads ensures Behind(p, s', o, q) {
        BehindStep(p, s, v, a, o, q);
      }
    }
  }

  // ----- chains and links -----

  lemma LocatedMove(p: Params, s: State, v: View, a: Step, e: Elem)
    requires s.cur < |s.tables| && Moving(p, s, v) && WorkerOk(p, s, v) && Enabled(p, s, a) && a.WLinkHead?
    requires Homed(p, v, Bucket(s.cur, s.worker.i)) && e in v.loc && Located(p, s, v, e)
    requires s.worker.e in v.loc && Located(p, s, v, s.worker.e)
    ensures e in Track(p, s, v, a).loc && Located(p, After(p, s, a), Track(p, s, v, a), e)
  {}

  lemma HomedMove(p: Params, s: State, v: View, a: Step, b: Bucket)
    requires s.cur < |s.tables| && Moving(p, s, v) && WorkerOk(p, s, v) && Enabled(p, s, a) && a.WLinkHead?
    requires Homed(p, v, b) && Homed(p, v, Bucket(s.cur, s.worker.i))
    requires s.worker.e in v.loc && Located(p, s, v, s.worker.e)
    ensures Homed(p, Track(p, s, v, a), b)
  {}

  lemma ChainsMove(p: Params, s: State, v: View, a: Step)
    requires s.cur < |s.tables| && ChainsOk(p, s, v) && WorkerOk(p, s, v)
    requires Enabled(p, s, a) && a.WLinkHead?
    ensures ChainsOk(p, After(p, s, a), Track(p, s, v, a))
  {
    var s', v' := After(p, s, a), Track(p, s, v, a);
    var source := Bucket(s.cur, s.worker.i);
    MovingFacts(p, s, v);
    assert Homed(p, v, source) && Located(p, s, v, s.worker.e) && v'.loc.Keys == v.loc.Keys;
    assert s'.inserted == s.inserted;
    hide After, Track, Located, Homed, Enabled, WorkerOk, Moving;
    forall b ensures Homed(p, v', b) {
      assert Homed(p, v, b);
      HomedMove(p, s, v, a, b);
    }
    forall e | e in v'.loc ensures Located(p, s', v', e) {
      assert Located(p, s, v, e);
      LocatedMove(p, s, v, a, e);
    }
  }

  lemma LocatedAdd(p: Params, s: State, v: View, a: Step, e: Elem)
    requires s.cur < |s.tables| && Enabled(p, s, a) && a.IStore? && ThreadOk(p, s, a.tid) && e in Track(p, s, v, a).loc
    requires e in v.loc ==> Located(p, s, v, e)
    ensures Located(p, After(p, s, a), Track(p, s, v, a), e)
  {}

  lemma HomedAdd(p: Params, s: State, v: View, a: Step, b: Bucket)
    requires s.cur < |s.tables| && Enabled(p, s, a) && a.IStore? && ThreadOk(p, s, a.tid) && Homed(p, v, b)
    requires v.loc.Keys == s.inserted
    ensures Homed(p, Track(p, s, v, a), b)
  {}

  lemma ChainsAdd(p: Params, s: State, v: View, a: Step)
    requires s.cur < |s.tables| && ChainsOk(p, s, v) && ThreadsOk(p, s)
    requires Enabled(p, s, a) && a.IStore?
    ensures ChainsOk(p, After(p, s, a), Track(p, s, v, a))
  {
    var s', v' := After(p, s, a), Track(p, s, v, a);
    assert ThreadOk(p, s, a.tid) && v'.loc.Keys == s'.inserted;
    hide After, Track, Located, Homed, ThreadOk, Enabled;
    forall e | e in v'.loc ensures Located(p, s', v', e) {
      if e in v.loc { assert Located(p, s, v, e); }
      LocatedAdd(p, s, v, a, e);
    }
    forall b ensures Homed(p, v', b) {
      assert Homed(p, v, b);
      HomedAdd(p, s, v, a, b);
    }
  }

  lemma Resident(p: Params, s: State, v: View, b: Bucket, e: Elem)
    requires ChainsOk(p, s, v) && e in Chain(v, b)
    ensures s.cur <= b.t < |s.tables| && Present(s, b)
  {
    assert Homed(p, v, b);
    assert Located(p, s, v, e);
  }

  /** Superseded and missing buckets are empty. */
  lemma NoChain(p: Params, s: State, v: View, b: Bucket)
    requires ChainsOk(p, s, v)
    requires b.t < s.cur || (b.t < |s.tables| && !Present(s, b))
    ensures Chain(v, b) == []
  {
    if Chain(v, b) != [] { Resident(p, s, v, b, Chain(v, b)[0]); }
  }

  lemma ChainsPublish(p: Params, s: State, v: View, a: Step)
    requires s.cur < |s.tables| && HashesOk(p, s) && ChainsOk(p, s, v) && WorkerOk(p, s, v)
    requires Enabled(p, s, a) && a.WPublish?
    ensures ChainsOk(p, After(p, s, a), v)
  {
    forall e | e in v.loc ensures Located(p, After(p, s, a), v, e) {
      assert Located(p, s, v, e);
      var b := At(p, v.loc[e], e);
      assert Hash(p, v.loc[e], p.key(e)) < s.tables[v.loc[e]].size;
      assert b.t == s.cur ==> b == Bucket(s.cur, b.i) && Chain(v, Bucket(s.cur, b.i)) == [];
    }
  }

  lemma LocatedOther(p: Params, s: State, v: View, a: Step, e: Elem)
    requires s.cur < |s.tables| && Enabled(p, s, a) && !a.WLinkHead? && !a.IStore? && !a.WPublish?
    requires e in v.loc && Located(p, s, v, e)
    ensures Located(p, After(p, s, a), v, e)
  {
    TablesGrow(p, s, a);
    hide After, Enabled;
  }

  lemma ChainsStep(p: Params, s: State, v: View, a: Step)
    requires s.cur < |s.tables| && HashesOk(p, s) && ChainsOk(p, s, v) && WorkerOk(p, s, v) && ThreadsOk(p, s)
    requires Enabled(p, s, a)
    ensures ChainsOk(p, After(p, s, a), Track(p, s, v, a))
  {
    if a.WLinkHead? { ChainsMove(p, s, v, a); }
    else if a.IStore? { ChainsAdd(p, s, v, a); }
    else if a.WPublish? { ChainsPublish(p, s, v, a); }
    else {
      var s' := After(p, s, a);
      assert Track(p, s, v, a) == v && s'.inserted == s.inserted;
      hide After, Located, Enabled, WorkerOk, ThreadsOk;
      forall e | e in v.loc ensures Located(p, s', v, e) {
        assert Located(p, s, v, e);
        LocatedOther(p, s, v, a, e);
      }
    }
  }

  /** Overwriting the pointer of an element that is not in the chain of `b`. */
  lemma LinkElsewhere(p: Params, s: State, v: View, b: Bucket, x: Elem, q: Ptr)
    requires LinkOk(p, s, v, b) && Homed(p, v, b) && (x in v.loc ==> b != At(p, v.loc[x], x))
    ensures Follows(s.next[x := q], Head(s, b), Chain(v, b), End(p, s, b))
  {
    FollowsElsewhere(s.next, Head(s, b), Chain(v, b), End(p, s, b), x, q);
  }

  lemma LinkDuringMove(p: Params, s: State, v: View, a: Step, b: Bucket)
    requires s.cur < |s.tables| && Moving(p, s, v) && WorkerOk(p, s, v) && Enabled(p, s, a)
    requires LinkOk(p, s, v, b) && Homed(p, v, b)
    requires a.WLinkNext? || a.WUnlink?
    ensures LinkOk(p, After(p, s, a), v, b)
  {
    var source := Bucket(s.cur, s.worker.i);
    var q := if a.WUnlink? then Nulls else Head(s, At(p, s.worker.target, s.worker.e));
    if b == source && Chain(v, b) != [] {
      FollowsRelink(s.next, Head(s, b), Chain(v, b), End(p, s, b), q);
    } else if a.WLinkNext? {
      LinkElsewhere(p, s, v, b, s.worker.e, q);
    } else if s.worker.pprev.Some? {
      LinkElsewhere(p, s, v, b, s.worker.pprev.value, q);
    }
  }

  lemma LinkDuringHeadStore(p: Params, s: State, v: View, a: Step, b: Bucket)
    requires s.cur < |s.tables| && Moving(p, s, v) && WorkerOk(p, s, v) && Enabled(p, s, a) && a.WLinkHead?
    requires LinkOk(p, s, v, b) && LinkOk(p, s, v, Bucket(s.cur, s.worker.i)) && Homed(p, v, Bucket(s.cur, s.worker.i))
    ensures LinkOk(p, After(p, s, a), Track(p, s, v, a), b)
  {
    var source, dest, e := Bucket(s.cur, s.worker.i), At(p, s.worker.target, s.worker.e), s.worker.e;
    HeadStored(p, s, v, a, b);
    FollowsRelink(s.next, Head(s, source), Chain(v, source), End(p, s, source), Nulls);
    hide WorkerOk, Enabled, Moving, After, Track, Homed, At;
    if b == dest {
      assert ([e] + Chain(v, b))[1..] == Chain(v, b);
    }
  }

  /** What the store leaves of the old bucket, the new one, and every other one. */
  lemma HeadStored(p: Params, s: State, v: View, a: Step, b: Bucket)
    requires s.cur < |s.tables| && WorkerOk(p, s, v) && Enabled(p, s, a) && a.WLinkHead?
    ensures var source, dest, e := Bucket(s.cur, s.worker.i), At(p, s.worker.target, s.worker.e), s.worker.e;
      var s', v', c := After(p, s, a), Track(p, s, v, a), Chain(v, source);
      && source != dest && c != [] && c[|c| - 1] == e && s'.next == s.next
      && Head(s', b) == (if b == dest then To(e) else Head(s, b))
      && Chain(v', b) == (if b == dest then [e] + Chain(v, b) else if b == source then c[..|c| - 1] else Chain(v, b))
      && End(p, s', b) == (if b == source then To(e) else Nulls)
      && End(p, s, b) == (if b == source then Head(s, dest) else Nulls)
  {
    hide Meets;
  }

  lemma LinkDuringInsert(p: Params, s: State, v: View, a: Step, b: Bucket)
    requires s.cur < |s.tables| && v.loc.Keys == s.inserted && WorkerOk(p, s, v) && Enabled(p, s, a)
    requires LinkOk(p, s, v, b) && Homed(p, v, b)
    requires (a.IFill? || a.IStore?) && ThreadOk(p, s, a.tid)
    ensures LinkOk(p, After(p, s, a), Track(p, s, v, a), b)
  {
    if a.IFill? {
      var i := s.threads[a.tid];
      LinkElsewhere(p, s, v, b, i.obj, Head(s, At(p, i.t, i.obj)));
    } else {
      LinkDuringStore(p, s, v, a, b);
    }
  }

  lemma LinkDuringStore(p: Params, s: State, v: View, a: Step, b: Bucket)
    requires s.cur < |s.tables| && WorkerOk(p, s, v) && Enabled(p, s, a) && a.IStore?
    requires LinkOk(p, s, v, b) && ThreadOk(p, s, a.tid)
    ensures LinkOk(p, After(p, s, a), Track(p, s, v, a), b)
  {
    var o := s.threads[a.tid].obj;
    assert ([o] + Chain(v, b))[1..] == Chain(v, b);
  }

  lemma LinkOtherwise(p: Params, s: State, v: View, a: Step, b: Bucket)
    requires s.cur < |s.tables| && WorkerOk(p, s, v) && Enabled(p, s, a) && LinkOk(p, s, v, b)
    requires !(a.WLinkNext? || a.WUnlink? || a.WLinkHead? || a.IFill? || a.IStore?)
    ensures LinkOk(p, After(p, s, a), v, b)
  {
    PointersKept(p, s, a);
    hide After, Enabled, WorkerOk;
  }

  /** Steps that store no pointer; the worker is before or behind its move, or stays where it is. */
  lemma PointersKept(p: Params, s: State, a: Step)
    requires s.cur < |s.tables| && Enabled(p, s, a)
    requires !(a.WLinkNext? || a.WUnlink? || a.WLinkHead? || a.IFill? || a.IStore?)
    ensures var s' := After(p, s, a);
      && s'.next == s.next && s'.head == s.head
      && (s'.worker.LinkHead? <==> s.worker.LinkHead?) && (s'.worker.Unlink? <==> s.worker.Unlink?)
      && (s.worker.LinkHead? || s.worker.Unlink? ==> s'.worker == s.worker && s'.cur == s.cur)
  {
    hide Meets;
  }

  lemma LinksStep(p: Params, s: State, v: View, a: Step)
    requires s.cur < |s.tables| && ChainsOk(p, s, v) && LinksOk(p, s, v) && WorkerOk(p, s, v) && ThreadsOk(p, s)
    requires Enabled(p, s, a)
    ensures LinksOk(p, After(p, s, a), Track(p, s, v, a))
  {
    MovingFacts(p, s, v);
    forall b ensures LinkOk(p, After(p, s, a), Track(p, s, v, a), b) {
      assert LinkOk(p, s, v, b) && Homed(p, v, b);
      if a.WLinkNext? || a.WUnlink? {
        LinkDuringMove(p, s, v, a, b);
      } else if a.WLinkHead? {
        assert LinkOk(p, s, v, Bucket(s.cur, s.worker.i)) && Homed(p, v, Bucket(s.cur, s.worker.i));
        LinkDuringHeadStore(p, s, v, a, b);
      } else if a.IFill? || a.IStore? {
        assert ThreadOk(p, s, a.tid);
        LinkDuringInsert(p, s, v, a, b);
      } else {
        LinkOtherwise(p, s, v, a, b);
      }
    }
  }

  // ----- the worker -----

  lemma WorkerChoose(p: Params, s: State, v: View, a: Step)
    requires s.cur < |s.tables| && WorkerOk(p, s, v) && Enabled(p, s, a) && a.WChoose?
    requires LinkOk(p, s, v, Bucket(s.cur, s.worker.i)) && Homed(p, v, Bucket(s.cur, s.worker.i))
    ensures WorkerOk(p, After(p, s, a), v)
  {
    ChosenIsLast(p, s, v, a);
    hide Meets, LinkOk, Homed;
  }

  /** What the walk down the old bucket meets last is the last of its chain, behind the last but one. */
  lemma ChosenIsLast(p: Params, s: State, v: View, a: Step)
    requires s.cur < |s.tables| && WorkerOk(p, s, v) && Enabled(p, s, a) && a.WChoose?
    requires LinkOk(p, s, v, Bucket(s.cur, s.worker.i)) && Homed(p, v, Bucket(s.cur, s.worker.i))
    ensures var c := Chain(v, Bucket(s.cur, s.worker.i));
      c != [] && c[|c| - 1] == a.e && a.pprev == Last(c[..|c| - 1])
  {
    hide WorkerOk;
    var b := Bucket(s.cur, s.worker.i);
    var c := Chain(v, b);
    MeetsFollows(s.next, Head(s, b), c, a.e);
    FollowsLast(s.next, Head(s, b), c, a.e, Nulls);
    if a.pprev.Some? {
      MeetsFollows(s.next, Head(s, b), c, a.pprev.value);
      FollowsLast(s.next, Head(s, b), c, a.pprev.value, To(a.e));
    }
  }

  lemma WorkerMoves(p: Params, s: State, v: View, a: Step)
    requires s.cur < |s.tables| && WorkerOk(p, s, v) && Enabled(p, s, a) && ByWorker(a)
    requires !a.WChoose? && (!s.worker.Idle? ==> LinkOk(p, s, v, Bucket(s.cur, s.worker.i)))
    requires a.WSkip? ==> Chain(v, Bucket(s.cur, s.worker.i)) == []
    ensures WorkerOk(p, After(p, s, a), Track(p, s, v, a))
  {
    if PointerStore(a) {
      WorkerRelinks(p, s, v, a);
    } else {
      assert Track(p, s, v, a) == v;
      hide Meets, Track;
    }
  }

  lemma WorkerRelinks(p: Params, s: State, v: View, a: Step)
    requires s.cur < |s.tables| && WorkerOk(p, s, v) && Enabled(p, s, a) && PointerStore(a)
    ensures WorkerOk(p, After(p, s, a), Track(p, s, v, a))
  {
    hide Meets;
  }

  lemma WorkerDuringStore(p: Params, s: State, v: View, a: Step)
    requires s.cur < |s.tables| && WorkerOk(p, s, v) && Enabled(p, s, a) && a.IStore?
    requires v.loc.Keys == s.inserted && ThreadOk(p, s, a.tid)
    ensures WorkerOk(p, After(p, s, a), Track(p, s, v, a))
  {}

  lemma WorkerDuringInsert(p: Params, s: State, v: View, a: Step)
    requires s.cur < |s.tables| && WorkerOk(p, s, v) && Enabled(p, s, a) && ByInserter(a) && !a.IStore?
    requires a.tid in s.threads ==> ThreadOk(p, s, a.tid)
    ensures WorkerOk(p, After(p, s, a), v)
  {
    var s' := After(p, s, a);
    assert s'.worker == s.worker && s'.cur == s.cur && s'.tables == s.tables;
    forall b | Lock(s, b) == Worker ensures Lock(s', b) == Worker {}
  }

  lemma WorkerStep(p: Params, s: State, v: View, a: Step)
    requires s.cur < |s.tables| && ChainsOk(p, s, v) && LinksOk(p, s, v) && WorkerOk(p, s, v) && ThreadsOk(p, s)
    requires Enabled(p, s, a)
    ensures WorkerOk(p, After(p, s, a), Track(p, s, v, a))
  {
    if ByWorker(a) {
      if !s.worker.Idle? {
        assert LinkOk(p, s, v, Bucket(s.cur, s.worker.i)) && Homed(p, v, Bucket(s.cur, s.worker.i));
      }
      if a.WSkip? { NoChain(p, s, v, Bucket(s.cur, s.worker.i)); }
      if a.WChoose? { WorkerChoose(p, s, v, a); } else { WorkerMoves(p, s, v, a); }
    } else if a.IStore? {
      assert ThreadOk(p, s, a.tid);
      WorkerDuringStore(p, s, v, a);
    } else if ByInserter(a) {
      WorkerDuringInsert(p, s, v, a);
    }
  }

  // ----- main results -----

  lemma ThreadsStep(p: Params, s: State, v: View, a: Step)
    requires Inv(p, s, v) && Enabled(p, s, a)
    ensures ThreadsOk(p, After(p, s, a))
  {
    MovingFacts(p, s, v);
    forall o | o in After(p, s, a).threads ensures ThreadOk(p, After(p, s, a), o) {
      if ByInserter(a) {
        if o == a.tid { ThreadSelf(p, s, v, a); } else { ThreadDuringOther(p, s, a, o); }
      } else if PointerStore(a) {
        ThreadDuringMove(p, s, v, a, o);
      } else {
        ThreadDuringWorker(p, s, v, a, o);
      }
    }
  }

  /** A lookup under the lock that meets no equal key has ruled the key out of its table. */
  lemma AbsentRulesOut(p: Params, s: State, v: View, tid: nat, e: Elem)
    requires Inv(p, s, v) && Enabled(p, s, IAbsent(tid))
    requires e in v.loc && p.key(e) == p.key(s.threads[tid].obj)
    ensures s.threads[tid].t < v.loc[e]
  {
    var i := s.threads[tid];
    var b := At(p, i.t, i.obj);
    assert Ruled(p, s, v, tid, e) && Located(p, s, v, e) && LinkOk(p, s, v, b);
    if v.loc[e] == i.t {
      FollowsMeets(s.next, Head(s, b), Chain(v, b), End(p, s, b), e);
    }
  }

  lemma KeysKept(p: Params, s: State, v: View, a: Step)
    requires Inv(p, s, v) && Enabled(p, s, a)
    ensures KeysOk(p, After(p, s, a), Track(p, s, v, a))
  {
    if a.IAbsent? {
      forall e | e in v.loc && p.key(e) == p.key(s.threads[a.tid].obj) ensures s.threads[a.tid].t < v.loc[e] {
        AbsentRulesOut(p, s, v, a.tid, e);
      }
    }
    KeysStep(p, s, v, a);
  }

  lemma HashesStep(p: Params, s: State, a: Step)
    requires s.cur < |s.tables| && HashesOk(p, s) && Enabled(p, s, a)
    ensures HashesOk(p, After(p, s, a))
  {}

  lemma InvStep(p: Params, s: State, v: View, a: Step)
    requires Inv(p, s, v) && Enabled(p, s, a)
    ensures Inv(p, After(p, s, a), Track(p, s, v, a))
  {
    hide HashesOk, ChainsOk, LinksOk, WorkerOk, ThreadsOk, ObjectsOk, KeysOk, Enabled, After, Track;
    StepGrows(p, s, a);
    HashesStep(p, s, a);
    ChainsStep(p, s, v, a);
    LinksStep(p, s, v, a);
    WorkerStep(p, s, v, a);
    ThreadsStep(p, s, v, a);
    ObjectsStep(p, s, a);
    KeysKept(p, s, v, a);
  }

  /** An empty table and nobody at work. */
  predicate Init(s: State) {
    |s.tables| == 1 && s.cur == 0 && s.head == map[] && s.lock == map[] &&
    s.worker == Idle && s.threads == map[] && s.inserted == {}
  }

  /** The state after a sequence of steps, if each was enabled in turn. */
  ghost predicate Reaches(p: Params, s: State, steps: seq<Step>, t: State)
    decreases |steps|
  {
    if steps == [] then s == t
    else s.cur < |s.tables| && Enabled(p, s, steps[0]) && Reaches(p, After(p, s, steps[0]), steps[1..], t)
  }

  lemma {:induction false} InvRun(p: Params, s: State, v: View, steps: seq<Step>, t: State) returns (w: View)
    requires Inv(p, s, v) && Reaches(p, s, steps, t)
    ensures Inv(p, t, w)
    decreases |steps|
  {
    if steps == [] {
      w := v;
    } else {
      InvStep(p, s, v, steps[0]);
      w := InvRun(p, After(p, s, steps[0]), Track(p, s, v, steps[0]), steps[1..], t);
    }
  }

  /** A lookup for the key of `e` that starts at `ht->tbl` and goes on through `future_tbl` meets `e`. */
  ghost predicate Findable(p: Params, s: State, e: Elem) {
    exists t :: s.cur <= t < |s.tables| && Meets(s.next, Head(s, At(p, t, e)), e)
  }

  /** In every state of every run no inserted element is lost, no two share a key, and no superseded
      table, nor any drained bucket of the current one, holds anything. */
  lemma {:induction false} NothingLost(p: Params, s: State, steps: seq<Step>, t: State)
    requires Init(s) && (forall k :: Hash(p, 0, k) < s.tables[0].size) && Reaches(p, s, steps, t)
    ensures t.cur < |t.tables|
    ensures forall e :: e in t.inserted ==> Findable(p, t, e)
    ensures forall e, f :: e in t.inserted && f in t.inserted && e != f ==> p.key(e) != p.key(f)
    ensures forall b: Bucket :: b.t < t.cur || (b.t == t.cur && b.i < Progress(t)) ==> Head(t, b) == Nulls
  {
    var v := InvRun(p, s, View(map[], map[]), steps, t);
    forall e | e in t.inserted ensures Findable(p, t, e) {
      assert Located(p, t, v, e);
      var b := At(p, v.loc[e], e);
      assert LinkOk(p, t, v, b);
      FollowsMeets(t.next, Head(t, b), Chain(v, b), End(p, t, b), e);
    }
    forall b: Bucket | b.t < t.cur || (b.t == t.cur && b.i < Progress(t)) ensures Head(t, b) == Nulls {
      assert LinkOk(p, t, v, b);
      if b.t < t.cur { NoChain(p, t, v, b); } else { assert b == Bucket(t.cur, b.i); }
    }
  }

  /** Draining is permanent: once `ht->tbl` has moved past a table, that table stays empty. */
  lemma {:induction false} CurrentGrows(p: Params, s: State, steps: seq<Step>, t: State)
    requires s.cur < |s.tables| && Reaches(p, s, steps, t)
    ensures s.cur <= t.cur && |s.tables| <= |t.tables| && s.inserted <= t.inserted
    decreases |steps|
  {
    if steps != [] {
      StepGrows(p, s, steps[0]);
      CurrentGrows(p, After(p, s, steps[0]), steps[1..], t);
    }
  }

  lemma StepGrows(p: Params, s: State, a: Step)
    requires s.cur < |s.tables| && Enabled(p, s, a)
    ensures var t := After(p, s, a);
            s.cur <= t.cur < |t.tables| && |s.tables| <= |t.tables| && s.inserted <= t.inserted
  {}

  /** An insertion answers "exists" only with an element that is in the table, and stores its object
      only while no element has its key. */
  lemma InsertAnswers(p: Params, s: State, v: View, a: Step)
    requires Inv(p, s, v) && Enabled(p, s, a)
    ensures a.IExists? ==> a.e in s.inserted && p.key(a.e) == p.key(s.threads[a.tid].obj)
    ensures a.IStore? ==> forall e :: e in s.inserted ==> p.key(e) != p.key(s.threads[a.tid].obj)
  {
    if a.IExists? {
      assert ThreadOk(p, s, a.tid);
      var b := At(p, s.threads[a.tid].t, s.threads[a.tid].obj);
      assert LinkOk(p, s, v, b) && Homed(p, v, b);
      MeetsFollows(s.next, Head(s, b), Chain(v, b), a.e);
    }
    if a.IStore? {
      forall e | e in s.inserted ensures p.key(e) != p.key(s.threads[a.tid].obj) {
        assert Ruled(p, s, v, a.tid, e);
      }
    }
  }

  /** With a bucket locked, the worker always has a next step, so a chain is moved to its end. */
  lemma RehashNotStuck(p: Params, s: State, v: View) returns (a: Step)
    requires Inv(p, s, v) && s.worker.Locked?
    ensures Enabled(p, s, a) && (a.WNested? || a.WDrained? || a.WChoose?)
    ensures a.WDrained? <==> !s.tables[|s.tables| - 1].nest && Chain(v, Bucket(s.cur, s.worker.i)) == []
  {
    var b := Bucket(s.cur, s.worker.i);
    var c := Chain(v, b);
    assert LinkOk(p, s, v, b) && Homed(p, v, b);
    if s.tables[|s.tables| - 1].nest {
      a := WNested;
    } else if c == [] {
      a := WDrained;
    } else {
      var e := c[|c| - 1];
      FollowsRelink(s.next, Head(s, b), c, Nulls, Nulls);
      FollowsMeets(s.next, Head(s, b), c, Nulls, e);
      if |c| == 1 {
        a := WChoose(e, None);
      } else {
        var d := c[..|c| - 1];
        assert forall i, j :: 0 <= i < j < |d| ==> d[i] == c[i] && d[j] == c[j];
        FollowsRelink(s.next, Head(s, b), d, To(e), Nulls);
        FollowsMeets(s.next, Head(s, b), d, To(e), d[|d| - 1]);
        a := WChoose(e, Some(d[|d| - 1]));
      }
    }
  }

  /** Moving one entry shortens the chain it leaves by one and keeps the set of elements. */
  lemma MoveConserves(p: Params, s: State, v: View)
    requires Inv(p, s, v) && s.worker.LinkHead?
    ensures var w := Track(p, s, v, WLinkHead);
            && w.loc.Keys == v.loc.Keys && w.loc == v.loc[s.worker.e := s.worker.target]
            && Chain(v, Bucket(s.cur, s.worker.i)) == Chain(w, Bucket(s.cur, s.worker.i)) + [s.worker.e]
            && Chain(w, At(p, s.worker.target, s.worker.e)) ==
               [s.worker.e] + Chain(v, At(p, s.worker.target, s.worker.e))
  {
    MovingFacts(p, s, v);
    hide Inv;
    var c := Chain(v, Bucket(s.cur, s.worker.i));
    assert c == c[..|c| - 1] + [s.worker.e];
  }
}
