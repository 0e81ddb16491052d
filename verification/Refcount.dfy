/** refcount_dec_not_one and refcount_dec_and_lock (compat/lib-refcount.c), run by any number of threads at
    once: one action per access to the counter or to the lock.
 */
module Refcount {

  const INT_MAX: nat := 0x7fff_ffff
  const SATURATED: nat := 0xc000_0000
  const WRAP: nat := 0x1_0000_0000

  type u32 = x: int | 0 <= x < WRAP

  datatype Option<T> = None | Some(value: T)

  /** Where a thread stands in refcount_dec_and_lock; Won is its return with true. */
  datatype Pc =
    | Idle
    | Reading
    | Deciding(val: u32)
    | Swapping(val: u32)
    | Locking
    | Testing
    | Unlocking
    | Won

  /** A thread and the references it owns; the one it is dropping counts until the counter is decremented. */
  datatype Thread = Thread(pc: Pc, held: nat)

  /** `winners`: the threads whose call returned true, in order. */
  datatype State = State(refs: u32, lock: Option<nat>, threads: seq<Thread>, winners: seq<nat>)

  datatype Action =
    | Get(t: nat)
    | Give(t: nat, to: nat)
    | Call(t: nat)
    | Step(t: nat)
    | Leave(t: nat)

  predicate Locked(p: Pc) { p.Testing? || p.Unlocking? || p.Won? }

  /** Inside the call, with its reference not yet given back. */
  predicate Dropping(p: Pc) { p.Reading? || p.Deciding? || p.Swapping? || p.Locking? || p.Testing? }

  predicate Enabled(s: State, a: Action) {
    && a.t < |s.threads|
    && var th := s.threads[a.t];
    match a
    case Get(_) => th.pc.Idle? && th.held >= 1 && s.refs < INT_MAX
    case Give(_, to) => th.pc.Idle? && th.held >= 1 && to < |s.threads|
    case Call(_) => th.pc.Idle? && th.held >= 1
    case Step(_) => !th.pc.Idle? && !th.pc.Won? && (th.pc.Locking? ==> s.lock.None?)
    case Leave(_) => th.pc.Won?
  }

  function Less(n: nat): nat { if n == 0 then 0 else n - 1 }

  function Put(s: State, t: nat, th: Thread): State
    requires t < |s.threads|
  {
    s.(threads := s.threads[t := th])
  }

  /** One access of refcount_dec_and_lock. */
  function Advance(s: State, t: nat): State
    requires t < |s.threads|
  {
    var th := s.threads[t];
    match th.pc
    case Reading => Put(s, t, th.(pc := Deciding(s.refs)))
    case Deciding(val) =>
      var less: u32 := (val - 1) % WRAP;
      if val == SATURATED then Put(s, t, Thread(Idle, Less(th.held)))
      else if val == 1 then Put(s, t, th.(pc := Locking))
      else if less > val then Put(s, t, Thread(Idle, Less(th.held)))
      else Put(s, t, th.(pc := Swapping(val)))
    case Swapping(val) =>
      if s.refs == val then Put(s.(refs := (val - 1) % WRAP), t, Thread(Idle, Less(th.held)))
      else Put(s, t, th.(pc := Deciding(s.refs)))
    case Locking => Put(s.(lock := Some(t)), t, th.(pc := Testing))
    case Testing =>
      if s.refs == 1 then
        Put(s.(refs := 0, winners := s.winners + [t]), t, Thread(Won, Less(th.held)))
      else
        var refs: u32 := if s.refs == 0 || s.refs > INT_MAX then SATURATED else s.refs - 1;
        Put(s.(refs := refs), t, Thread(Unlocking, Less(th.held)))
    case Unlocking => Put(s.(lock := None), t, th.(pc := Idle))
    case _ => s
  }

  function After(s: State, a: Action): State
    requires Enabled(s, a)
  {
    var th := s.threads[a.t];
    match a
    case Get(t) => Put(s.(refs := s.refs + 1), t, th.(held := th.held + 1))
    case Give(t, to) =>
      var less := Put(s, t, th.(held := th.held - 1));
      Put(less, to, less.threads[to].(held := less.threads[to].held + 1))
    case Call(t) => Put(s, t, th.(pc := Reading))
    case Step(t) => Advance(s, t)
    case Leave(t) => Put(s.(lock := None), t, th.(pc := Idle))
  }

  function Total(ts: seq<Thread>): nat {
    if ts == [] then 0 else ts[0].held + Total(ts[1..])
  }

  lemma {:induction false} TotalPut(ts: seq<Thread>, t: nat, th: Thread)
    requires t < |ts|
    ensures Total(ts[t := th]) == Total(ts) - ts[t].held + th.held
  {
    if t == 0 {
      assert ts[t := th][1..] == ts[1..];
    } else {
      assert ts[t := th][1..] == ts[1..][t - 1 := th];
      TotalPut(ts[1..], t - 1, th);
    }
  }

  // ----- the invariant -----

  predicate ThreadOk(th: Thread) {
    && (Dropping(th.pc) ==> th.held >= 1)
    && (th.pc.Deciding? ==> 1 <= th.pc.val <= INT_MAX)
    && (th.pc.Swapping? ==> 2 <= th.pc.val <= INT_MAX)
  }

  /** The counter is the number of references, the lock's holder is the thread inside the locked part, and
      there is a winner exactly when the counter is zero.
   */
  predicate Inv(s: State) {
    && s.refs == Total(s.threads) <= INT_MAX
    && (forall t :: 0 <= t < |s.threads| ==> ThreadOk(s.threads[t]))
    && (forall t :: 0 <= t < |s.threads| ==> (Locked(s.threads[t].pc) <==> s.lock == Some(t)))
    && (s.lock.Some? ==> s.lock.value < |s.threads|)
    && (forall t :: 0 <= t < |s.threads| && s.threads[t].pc.Won? ==> s.winners == [t])
    && |s.winners| == (if s.refs == 0 then 1 else 0)
  }

  predicate Init(s: State) {
    && 1 <= s.refs == Total(s.threads) <= INT_MAX
    && s.lock == None && s.winners == []
    && forall t :: 0 <= t < |s.threads| ==> s.threads[t].pc.Idle?
  }

  lemma {:induction false} HeldAtMost(ts: seq<Thread>, t: nat)
    requires t < |ts|
    ensures ts[t].held <= Total(ts)
  {
    if t > 0 { HeldAtMost(ts[1..], t - 1); }
  }

  /** The action of one thread: what it owns and the counter change alike, and it takes or frees the lock
      as it enters or leaves the locked part.
   */
  lemma OneThread(s: State, s': State, t: nat)
    requires Inv(s) && t < |s.threads| && t < |s'.threads|
    requires s'.threads == s.threads[t := s'.threads[t]] && ThreadOk(s'.threads[t])
    requires s'.refs - s'.threads[t].held == s.refs - s.threads[t].held && s'.refs <= INT_MAX
    requires
      || (s'.lock == s.lock && (Locked(s'.threads[t].pc) <==> Locked(s.threads[t].pc)))
      || (s.lock == None && s'.lock == Some(t) && Locked(s'.threads[t].pc))
      || (s.lock == Some(t) && s'.lock == None && !Locked(s'.threads[t].pc))
    requires
      || (s'.winners == s.winners && (s'.refs == 0 <==> s.refs == 0) && !s'.threads[t].pc.Won?)
      || (s.refs > 0 && s'.refs == 0 && s'.winners == s.winners + [t])
    ensures Inv(s')
  {
    TotalPut(s.threads, t, s'.threads[t]);
  }

  lemma AdvanceKeepsInv(s: State, t: nat)
    requires Inv(s) && Enabled(s, Step(t))
    ensures Inv(Advance(s, t))
  {
    var th := s.threads[t];
    HeldAtMost(s.threads, t);
    assert ThreadOk(th);
    if th.pc.Reading? || th.pc.Deciding? || th.pc.Swapping? {
      hide Total;
      OneThread(s, Advance(s, t), t);
    } else {
      LockedKeepsInv(s, t);
    }
  }

  /** The steps that take the lock, or are made under it. */
  lemma LockedKeepsInv(s: State, t: nat)
    requires Inv(s) && Enabled(s, Step(t)) && !s.threads[t].pc.Reading?
    requires !s.threads[t].pc.Deciding? && !s.threads[t].pc.Swapping?
    ensures Inv(Advance(s, t))
  {
    HeldAtMost(s.threads, t);
    assert ThreadOk(s.threads[t]);
    hide Total;
    OneThread(s, Advance(s, t), t);
  }

  lemma GiveKeepsInv(s: State, t: nat, to: nat)
    requires Inv(s) && Enabled(s, Give(t, to))
    ensures Inv(After(s, Give(t, to)))
  {
    var less := s.threads[t := s.threads[t].(held := s.threads[t].held - 1)];
    TotalPut(s.threads, t, less[t]);
    TotalPut(less, to, After(s, Give(t, to)).threads[to]);
    hide Total;
    var s' := After(s, Give(t, to));
    assert s'.threads == less[to := less[to].(held := less[to].held + 1)];
    forall u | 0 <= u < |s.threads| ensures s'.threads[u].pc == s.threads[u].pc && ThreadOk(s'.threads[u]) {
      assert ThreadOk(s.threads[u]);
    }
  }

  lemma InvStep(s: State, a: Action)
    requires Inv(s) && Enabled(s, a)
    ensures Inv(After(s, a))
  {
    match a
    case Step(t) => AdvanceKeepsInv(s, t);
    case Give(t, to) => GiveKeepsInv(s, t, to);
    case _ =>
      HeldAtMost(s.threads, a.t);
      hide Total;
      OneThread(s, After(s, a), a.t);
  }

  predicate Runs(s: State, run: seq<Action>)
    decreases |run|
  {
    run == [] || (Enabled(s, run[0]) && Runs(After(s, run[0]), run[1..]))
  }

  function End(s: State, run: seq<Action>): State
    requires Runs(s, run)
    decreases |run|
  {
    if run == [] then s else End(After(s, run[0]), run[1..])
  }

  lemma {:induction false} InvRun(s: State, run: seq<Action>)
    requires Inv(s) && Runs(s, run)
    ensures Inv(End(s, run))
    decreases |run|
  {
    if run != [] {
      InvStep(s, run[0]);
      InvRun(After(s, run[0]), run[1..]);
    }
  }

  // ----- the promises -----

  /** The counter goes to zero only by one, and only by a thread that holds the lock before and after, whose
      call returns true by that very action.
   */
  lemma ZeroOnlyUnderLock(s: State, a: Action)
    requires Inv(s) && Enabled(s, a) && s.refs > 0 && After(s, a).refs == 0
    ensures s.refs == 1 && s.lock == Some(a.t) && After(s, a).lock == Some(a.t)
    ensures After(s, a).threads[a.t].pc.Won? && After(s, a).winners == [a.t]
  {
    InvStep(s, a);
  }

  /** A call returns true only when it makes the counter zero, and returns holding the lock; when a call
      ends otherwise the thread does not hold the lock. Each call gives back one reference, by the one
      action that takes one off the counter.
   */
  lemma CallEnds(s: State, t: nat)
    requires Inv(s) && Enabled(s, Step(t))
    ensures var s' := After(s, Step(t));
      && (s'.threads[t].pc.Won? ==> s.refs == 1 && s'.refs == 0 && s'.lock == Some(t))
      && (s'.threads[t].pc.Idle? ==> s'.lock != Some(t))
      && (if Dropping(s.threads[t].pc) && !Dropping(s'.threads[t].pc)
        then s'.threads[t].held + 1 == s.threads[t].held && s'.refs + 1 == s.refs
        else s'.threads[t].held == s.threads[t].held && s'.refs == s.refs)
  {
    InvStep(s, Step(t));
  }

  /** From any start with at least one reference, and after any run: at most one call has returned true, it
      is one as soon as the counter is zero, and when every thread is idle with no reference left it is
      exactly one.
   */
  lemma OneWinner(s: State, run: seq<Action>)
    requires Init(s) && Runs(s, run)
    ensures var e := End(s, run);
      && |e.winners| <= 1
      && (|e.winners| == 1 <==> e.refs == 0)
      && ((forall t :: 0 <= t < |e.threads| ==> e.threads[t].held == 0) ==> |e.winners| == 1)
  {
    InvRun(s, run);
    var e := End(s, run);
    if forall t :: 0 <= t < |e.threads| ==> e.threads[t].held == 0 { TotalZero(e.threads); }
  }

  lemma {:induction false} TotalZero(ts: seq<Thread>)
    requires forall t :: 0 <= t < |ts| ==> ts[t].held == 0
    ensures Total(ts) == 0
  {
    if ts != [] { TotalZero(ts[1..]); }
  }

  /** With no saturated counter to begin with, neither the saturation branch nor the underflow branch of
      refcount_dec_not_one is ever taken.
   */
  lemma NoUnderflow(s: State, run: seq<Action>, t: nat)
    requires Init(s) && Runs(s, run)
    requires t < |s.threads| && t < |End(s, run).threads| && End(s, run).threads[t].pc.Deciding?
    ensures var val := End(s, run).threads[t].pc.val; val != SATURATED && (val - 1) % WRAP < val
  {
    InvRun(s, run);
    assert ThreadOk(End(s, run).threads[t]);
  }

  /** No deadlock: a thread inside the call can move, or the lock's holder can. */
  lemma NotStuck(s: State, t: nat)
    requires Inv(s) && t < |s.threads| && !s.threads[t].pc.Idle?
    ensures exists a :: Enabled(s, a) && (a.t == t || s.lock == Some(a.t))
  {
    if Enabled(s, Step(t)) {
      assert Enabled(s, Step(t));
    } else if s.threads[t].pc.Won? {
      assert Enabled(s, Leave(t));
    } else {
      var u := s.lock.value;
      assert Locked(s.threads[u].pc);
      assert Enabled(s, if s.threads[u].pc.Won? then Leave(u) else Step(u));
    }
  }
}
