/** The menu tree (kconf/menu.c, kconf/confdata.c): how menu_finalize relinks it, and the walk of conf_write.

    Menu nodes are numbered in the order in which a pre-order walk of the parsed tree meets them, 0 being
    rootmenu. A forest of siblings laid out from number `lo` on is then a shape only: its first node is `lo`,
    that node's children follow at lo + 1, and its next sibling comes behind them.
 */
module KconfigMenu {

  const NULL: int := -1

  /** The three link fields of all menu nodes. */
  datatype Links = Links(next: seq<int>, parent: seq<int>, list: seq<int>) {
    predicate Sized() { |next| == |parent| == |list| }
  }

  datatype Forest = Nil | Cons(kids: Forest, rest: Forest)

  function Size(f: Forest): nat {
    match f
    case Nil => 0
    case Cons(kids, rest) => 1 + Size(kids) + Size(rest)
  }

  /** More siblings behind a forest. */
  function Join(a: Forest, b: Forest): (f: Forest)
    ensures Size(f) == Size(a) + Size(b)
  {
    match a
    case Nil => b
    case Cons(kids, rest) => Cons(kids, Join(rest, b))
  }

  // ----- the representation -----

  /** The pointer to the first node of a forest at `lo`; `tail` if there is none. */
  function Head(lo: nat, f: Forest, tail: int): int { if f.Nil? then tail else lo }

  /** The links at lo, lo + 1, ... are those of forest f, its top level having parent p and its last
      sibling's next being `tail`.
   */
  predicate Rep(l: Links, lo: nat, f: Forest, p: int, tail: int)
    decreases f
  {
    && l.Sized() && lo + Size(f) <= |l.next|
    && match f
       case Nil => true
       case Cons(kids, rest) =>
         && l.parent[lo] == p
         && l.list[lo] == Head(lo + 1, kids, NULL)
         && l.next[lo] == Head(lo + 1 + Size(kids), rest, tail)
         && Rep(l, lo + 1, kids, lo, NULL)
         && Rep(l, lo + 1 + Size(kids), rest, p, tail)
  }

  /** One node of it. */
  predicate Node(l: Links, lo: nat, f: Forest, p: int, tail: int)
    requires f.Cons?
  {
    && l.Sized() && lo + Size(f) <= |l.next|
    && l.parent[lo] == p
    && l.list[lo] == Head(lo + 1, f.kids, NULL)
    && l.next[lo] == Head(lo + 1 + Size(f.kids), f.rest, tail)
    && Rep(l, lo + 1, f.kids, lo, NULL)
    && Rep(l, lo + 1 + Size(f.kids), f.rest, p, tail)
  }

  lemma RepNode(l: Links, lo: nat, f: Forest, p: int, tail: int)
    requires f.Cons?
    ensures Rep(l, lo, f, p, tail) <==> Node(l, lo, f, p, tail)
    ensures Size(f) == 1 + Size(f.kids) + Size(f.rest)
  {}

  lemma RepNil(l: Links, lo: nat, p: int, tail: int)
    requires l.Sized() && lo <= |l.next|
    ensures Rep(l, lo, Nil, p, tail)
  {}

  predicate SameAt(l: Links, l': Links, k: nat)
    requires l.Sized() && l'.Sized() && k < |l.next| == |l'.next|
  {
    l.next[k] == l'.next[k] && l.parent[k] == l'.parent[k] && l.list[k] == l'.list[k]
  }

  /** Nothing changed at numbers lo to hi. */
  predicate Same(l: Links, l': Links, lo: nat, hi: nat) {
    && l.Sized() && l'.Sized() && |l.next| == |l'.next|
    && forall k :: lo <= k < hi && k < |l.next| ==> SameAt(l, l', k)
  }

  lemma {:induction false} RepFrame(l: Links, l': Links, lo: nat, f: Forest, p: int, tail: int)
    requires Rep(l, lo, f, p, tail) && Same(l, l', lo, lo + Size(f))
    ensures Rep(l', lo, f, p, tail)
    decreases f
  {
    if f.Cons? {
      assert SameAt(l, l', lo);
      RepFrame(l, l', lo + 1, f.kids, lo, NULL);
      RepFrame(l, l', lo + 1 + Size(f.kids), f.rest, p, tail);
    }
  }

  lemma {:induction false} RepJoin(l: Links, lo: nat, a: Forest, at: nat, b: Forest, p: int, tail: int)
    requires at == lo + Size(a) && Rep(l, lo, a, p, Head(at, b, tail)) && Rep(l, at, b, p, tail)
    ensures Rep(l, lo, Join(a, b), p, tail)
    decreases a
  {
    assert l.Sized() && at + Size(b) <= |l.next|;
    hide Rep, Join, Size;
    JoinOf(a, b);
    if a.Cons? {
      JoinOf(a.rest, b);
      RepNode(l, lo, a, p, Head(at, b, tail));
      RepNode(l, lo, Join(a, b), p, tail);
      RepJoin(l, lo + 1 + Size(a.kids), a.rest, at, b, p, tail);
    }
  }

  lemma JoinOf(a: Forest, b: Forest)
    ensures Join(a, b) == if a.Nil? then b else Cons(a.kids, Join(a.rest, b))
    ensures a.Nil? ==> Size(a) == 0
  {}

  lemma {:induction false} JoinAssoc(a: Forest, b: Forest, c: Forest)
    ensures Join(Join(a, b), c) == Join(a, Join(b, c))
  {
    if a.Cons? { JoinAssoc(a.rest, b, c); }
  }

  lemma JoinStep(done: Forest, k: Forest, f: Forest)
    ensures Join(Join(done, Cons(k, Nil)), f) == Join(done, Cons(k, f))
  {
    JoinAssoc(done, Cons(k, Nil), f);
  }

  lemma {:induction false} JoinNil(a: Forest)
    ensures Join(a, Nil) == a && Join(Nil, a) == a
  {
    if a.Cons? { JoinNil(a.rest); }
  }

  /** The last node of the top level. */
  function Last(lo: nat, f: Forest): (k: nat)
    requires f.Cons?
    ensures lo <= k < lo + Size(f)
    decreases f
  {
    if f.rest.Nil? then lo else Last(lo + 1 + Size(f.kids), f.rest)
  }

  lemma LastOf(lo: nat, f: Forest)
    requires f.Cons?
    ensures Last(lo, f) == if f.rest.Nil? then lo else Last(lo + 1 + Size(f.kids), f.rest)
  {}

  lemma JoinOne(a: Forest, k: Forest)
    ensures Join(a, Cons(k, Nil)) == if a.Nil? then Cons(k, Nil) else Cons(a.kids, Join(a.rest, Cons(k, Nil)))
    ensures Join(a, Cons(k, Nil)).Cons?
  {}

  lemma SizeOf(a: Forest)
    ensures Size(a) == if a.Nil? then 0 else 1 + Size(a.kids) + Size(a.rest)
  {}

  lemma {:induction false} LastJoin(lo: nat, a: Forest, at: nat, k: Forest)
    requires at == lo + Size(a)
    ensures Last(lo, Join(a, Cons(k, Nil))) == at
    decreases a
  {
    hide Size, Join, Last;
    JoinOne(a, k);
    SizeOf(a);
    LastOf(lo, Join(a, Cons(k, Nil)));
    if a.Cons? {
      JoinOne(a.rest, k);
      LastJoin(lo + 1 + Size(a.kids), a.rest, at, k);
    }
  }

  lemma {:induction false} RepLast(l: Links, lo: nat, f: Forest, last: nat, p: int, tail: int)
    requires f.Cons? && last == Last(lo, f) && Rep(l, lo, f, p, tail)
    ensures l.Sized() && last < |l.next| && l.next[last] == tail
    decreases f
  {
    if f.rest.Cons? { RepLast(l, lo + 1 + Size(f.kids), f.rest, last, p, tail); }
  }

  /** Storing another pointer in the last sibling's next changes the tail only. */
  lemma {:induction false} RepTail(l: Links, l': Links, lo: nat, f: Forest, last: nat, p: int, tail: int, tail': int)
    requires f.Cons? && last == Last(lo, f) && Rep(l, lo, f, p, tail)
    requires l.Sized() && last < |l.next| && l' == l.(next := l.next[last := tail'])
    ensures Rep(l', lo, f, p, tail')
    decreases f
  {
    var k := lo + 1 + Size(f.kids);
    if f.rest.Cons? {
      assert last == Last(k, f.rest);
      hide Rep, Last;
      RepNode(l, lo, f, p, tail);
      RepTail(l, l', k, f.rest, last, p, tail, tail');
      TailNode(l, l', lo, f, last, p, tail, tail');
    } else {
      RepNil(l', k, p, tail');
      hide Rep;
      TailNode(l, l', lo, f, last, p, tail, tail');
    }
  }

  lemma TailNode(l: Links, l': Links, lo: nat, f: Forest, last: nat, p: int, tail: int, tail': int)
    requires f.Cons? && Rep(l, lo, f, p, tail)
    requires l.Sized() && last < |l.next| && l' == l.(next := l.next[last := tail'])
    requires if f.rest.Nil? then last == lo else last >= lo + 1 + Size(f.kids)
    requires Rep(l', lo + 1 + Size(f.kids), f.rest, p, tail')
    ensures Rep(l', lo, f, p, tail')
  {
    hide Rep;
    RepNode(l, lo, f, p, tail);
    assert Same(l, l', lo + 1, lo + 1 + Size(f.kids));
    RepFrame(l, l', lo + 1, f.kids, lo, NULL);
    RepNode(l', lo, f, p, tail');
  }

  // ----- what menu_finalize makes of the forest -----

  /** What the parts of menu_finalize that are not about links decide: which nodes have a symbol, which have
      a prompt with a text, and whether node m, coming behind p, depends on p's symbol as required for p's
      automatic submenu.
   */
  datatype World = World(sym: nat -> bool, prompted: nat -> bool, joins: (nat, nat) -> bool)

  /** The first node of a forest with its children finalized one by one, if it has any; otherwise, for a
      symbol, with the following siblings that join, finalized, as its children.
   */
  function Gathered(w: World, lo: nat, f: Forest): (g: Forest)
    requires f.Cons?
    ensures g.Cons? && Size(g) == Size(f)
    decreases Size(f), 0
  {
    if f.kids.Cons? then Cons(FinAll(w, lo + 1, f.kids), f.rest)
    else if w.sym(lo) then
      var (taken, left) := Take(w, lo, lo + 1, f.rest);
      Cons(taken, left)
    else f
  }

  /** menu_finalize on the first node of a forest: its children are gathered, and their children come up
      where the child has no prompt.
   */
  function Fin(w: World, lo: nat, f: Forest): (g: Forest)
    requires f.Cons?
    ensures g.Cons? && Size(g) == Size(f)
    decreases Size(f), 1
  {
    var g := Gathered(w, lo, f);
    Cons(Flatten(w, lo + 1, g.kids), g.rest)
  }

  /** The siblings one after the other; each may first have taken some of those behind it. */
  function FinAll(w: World, lo: nat, f: Forest): (g: Forest)
    ensures Size(g) == Size(f)
    decreases Size(f), 2
  {
    if f.Nil? then Nil
    else
      var g := Fin(w, lo, f);
      Cons(g.kids, FinAll(w, lo + 1 + Size(g.kids), g.rest))
  }

  /** The siblings that join p's automatic submenu, finalized, and those left behind. */
  function Take(w: World, p: nat, lo: nat, f: Forest): (r: (Forest, Forest))
    ensures Size(r.0) + Size(r.1) == Size(f)
    decreases Size(f), 2
  {
    if f.Nil? || !w.joins(p, lo) then (Nil, f)
    else
      var g := Fin(w, lo, f);
      var (taken, left) := Take(w, p, lo + 1 + Size(g.kids), g.rest);
      (Cons(g.kids, taken), left)
  }

  function Flatten(w: World, lo: nat, f: Forest): (g: Forest)
    ensures Size(g) == Size(f)
    decreases Size(f)
  {
    if f.Nil? then Nil
    else if f.kids.Cons? && !w.prompted(lo) then Cons(Nil, Flatten(w, lo + 1, Join(f.kids, f.rest)))
    else Cons(f.kids, Flatten(w, lo + 1 + Size(f.kids), f.rest))
  }

  // ----- what that means -----

  /** Every node with children has a prompt. */
  predicate AllPrompted(w: World, lo: nat, f: Forest)
    decreases f
  {
    f.Cons? ==>
      && (f.kids.Cons? ==> w.prompted(lo))
      && AllPrompted(w, lo + 1, f.kids)
      && AllPrompted(w, lo + 1 + Size(f.kids), f.rest)
  }

  /** The same, the top level excepted. */
  predicate BelowPrompted(w: World, lo: nat, f: Forest)
    decreases f
  {
    f.Cons? ==> AllPrompted(w, lo + 1, f.kids) && BelowPrompted(w, lo + 1 + Size(f.kids), f.rest)
  }

  lemma {:induction false} AllIsBelow(w: World, lo: nat, f: Forest)
    requires AllPrompted(w, lo, f)
    ensures BelowPrompted(w, lo, f)
    decreases f
  {
    if f.Cons? { AllIsBelow(w, lo + 1 + Size(f.kids), f.rest); }
  }

  lemma {:induction false} BelowJoin(w: World, lo: nat, a: Forest, b: Forest)
    requires BelowPrompted(w, lo, a) && BelowPrompted(w, lo + Size(a), b)
    ensures BelowPrompted(w, lo, Join(a, b))
    decreases a
  {
    hide AllPrompted;
    if a.Cons? { BelowJoin(w, lo + 1 + Size(a.kids), a.rest, b); }
  }

  lemma {:induction false} FlattenPrompted(w: World, lo: nat, f: Forest)
    requires BelowPrompted(w, lo, f)
    ensures AllPrompted(w, lo, Flatten(w, lo, f))
    decreases Size(f)
  {
    if f.Cons? {
      if f.kids.Cons? && !w.prompted(lo) {
        AllIsBelow(w, lo + 1, f.kids);
        BelowJoin(w, lo + 1, f.kids, f.rest);
        FlattenPrompted(w, lo + 1, Join(f.kids, f.rest));
      } else {
        FlattenPrompted(w, lo + 1 + Size(f.kids), f.rest);
      }
    }
  }

  /** After menu_finalize every node below the one it was called for has a prompt if it has children: no
      `if` and no promptless symbol keeps a submenu.
   */
  lemma {:induction false} FinPrompted(w: World, lo: nat, f: Forest)
    requires f.Cons?
    ensures AllPrompted(w, lo + 1, Fin(w, lo, f).kids)
    decreases Size(f), 1
  {
    if f.kids.Cons? {
      FinAllPrompted(w, lo + 1, f.kids);
      FlattenPrompted(w, lo + 1, FinAll(w, lo + 1, f.kids));
    } else if w.sym(lo) {
      TakePrompted(w, lo, lo + 1, f.rest);
      FlattenPrompted(w, lo + 1, Take(w, lo, lo + 1, f.rest).0);
    }
  }

  lemma {:induction false} FinAllPrompted(w: World, lo: nat, f: Forest)
    ensures BelowPrompted(w, lo, FinAll(w, lo, f))
    decreases Size(f), 2
  {
    if f.Cons? {
      var g := Fin(w, lo, f);
      FinPrompted(w, lo, f);
      FinAllPrompted(w, lo + 1 + Size(g.kids), g.rest);
    }
  }

  lemma {:induction false} TakePrompted(w: World, p: nat, lo: nat, f: Forest)
    ensures BelowPrompted(w, lo, Take(w, p, lo, f).0)
    decreases Size(f), 2
  {
    if f.Cons? && w.joins(p, lo) {
      var g := Fin(w, lo, f);
      FinPrompted(w, lo, f);
      TakePrompted(w, p, lo + 1 + Size(g.kids), g.rest);
    }
  }

  /** Every node of the top level joins p's submenu. */
  predicate AllJoin(w: World, p: nat, lo: nat, f: Forest)
    decreases f
  {
    f.Cons? ==> w.joins(p, lo) && AllJoin(w, p, lo + 1 + Size(f.kids), f.rest)
  }

  /** An automatic submenu takes the following siblings as long as they join, and no further. */
  lemma {:induction false} TakeExact(w: World, p: nat, lo: nat, f: Forest)
    ensures var (taken, left) := Take(w, p, lo, f);
      AllJoin(w, p, lo, taken) && (left.Cons? ==> !w.joins(p, lo + Size(taken)))
    decreases Size(f)
  {
    hide Fin, Take;
    TakeIs(w, p, lo, f);
    if f.Cons? && w.joins(p, lo) {
      var g := Fin(w, lo, f);
      TakeExact(w, p, lo + 1 + Size(g.kids), g.rest);
    }
  }

  // ----- the loops' steps on the links -----

  /** Nothing changed outside of numbers lo to hi. */
  predicate SameOutside(l: Links, l': Links, lo: nat, hi: nat) {
    Same(l, l', 0, lo) && Same(l, l', hi, |l.next|)
  }

  lemma SameTwice(l: Links, l1: Links, l2: Links, lo: nat, hi: nat, lo1: nat, hi1: nat)
    requires SameOutside(l, l1, lo, hi) && SameOutside(l1, l2, lo1, hi1) && lo <= lo1 && hi1 <= hi
    ensures SameOutside(l, l2, lo, hi)
  {
    forall k | 0 <= k < |l.next| && (k < lo || k >= hi) ensures SameAt(l, l2, k) {
      assert SameAt(l, l1, k) && SameAt(l1, l2, k);
    }
  }

  /** A loop stands at `at` between two siblings: those before it are `done` and have parent p, those from it
      on are `todo` and have parent q.
   */
  predicate Cursor(l: Links, lo: nat, done: Forest, at: nat, todo: Forest, p: int, q: int) {
    && at == lo + Size(done)
    && Rep(l, lo, done, p, Head(at, todo, NULL))
    && Rep(l, at, todo, q, NULL)
  }

  /** The cursor's node and those behind it are now g, and the cursor steps over the first of them. */
  lemma StepOver(l: Links, l': Links, lo: nat, done: Forest, at: nat, todo: Forest, g: Forest, at': nat, p: int, q: int)
    requires Cursor(l, lo, done, at, todo, p, q) && todo.Cons? && g.Cons? && Size(g) == Size(todo)
    requires SameOutside(l, l', at, at + Size(todo)) && at' == at + 1 + Size(g.kids)
    requires Rep(l', at, Cons(g.kids, Nil), p, Head(at', g.rest, NULL)) && Rep(l', at', g.rest, q, NULL)
    ensures Cursor(l', lo, Join(done, Cons(g.kids, Nil)), at', g.rest, p, q)
    ensures l'.next[at] == Head(at', g.rest, NULL)
  {
    hide Rep;
    assert Same(l, l', lo, lo + Size(done));
    RepFrame(l, l', lo, done, p, at);
    var one, x := Cons(g.kids, Nil), Head(at', g.rest, NULL);
    RepNode(l', at, one, p, x);
    RepJoin(l', lo, done, at, one, p, x);
  }

  /** With other children in place of a node's children. */
  lemma ReplaceKids(l: Links, l': Links, m: nat, f: Forest, kids: Forest, q: int)
    requires f.Cons? && Rep(l, m, f, q, NULL) && Size(kids) == Size(f.kids) && (kids.Nil? <==> f.kids.Nil?)
    requires SameOutside(l, l', m + 1, m + 1 + Size(f.kids)) && Rep(l', m + 1, kids, m, NULL)
    ensures Rep(l', m, Cons(kids, f.rest), q, NULL)
  {
    assert SameAt(l, l', m);
    hide Rep;
    RepNode(l, m, f, q, NULL);
    RepNode(l', m, Cons(kids, f.rest), q, NULL);
    RepFrame(l, l', m + 1 + Size(f.kids), f.rest, q, NULL);
  }

  lemma AtStart(l: Links, lo: nat, f: Forest, p: int)
    requires Rep(l, lo, f, p, NULL)
    ensures Cursor(l, lo, Nil, lo, f, p, p) && Join(Nil, f) == f
  {}

  /** What the cursor stands on. */
  lemma CursorAt(l: Links, lo: nat, done: Forest, at: nat, todo: Forest, p: int, q: int)
    requires Cursor(l, lo, done, at, todo, p, q)
    ensures at == lo + Size(done)
    ensures l.Sized() && Rep(l, at, todo, q, NULL) && (todo.Cons? ==> at < |l.next|)
    ensures todo.Nil? ==> Rep(l, lo, done, p, NULL)
  {}

  /** The first of a forest alone. */
  lemma OneOf(l: Links, at: nat, g: Forest, at': nat, p: int)
    requires g.Cons? && at' == at + 1 + Size(g.kids) && Rep(l, at, g, p, NULL)
    ensures Rep(l, at, Cons(g.kids, Nil), p, Head(at', g.rest, NULL))
    ensures Rep(l, at', g.rest, p, NULL)
    ensures l.Sized() && at < |l.next| && l.next[at] == Head(at', g.rest, NULL)
  {}

  lemma FinAllIs(w: World, lo: nat, f: Forest)
    ensures f.Nil? ==> FinAll(w, lo, f) == Nil
    ensures f.Cons? ==>
      var g := Fin(w, lo, f);
      && FinAll(w, lo, f) == Cons(g.kids, FinAll(w, lo + 1 + Size(g.kids), g.rest))
      && Size(f) == 1 + Size(g.kids) + Size(g.rest)
  {}

  /** A turn of the loop over the children: menu_finalize has changed the forest from the cursor on. */
  lemma ChildStep(w: World, l0: Links, l1: Links, l2: Links, lo: nat, hi: nat, done: Forest, at: nat,
                  todo: Forest, m: int)
    requires Cursor(l1, lo, done, at, todo, m, m) && todo.Cons? && at + Size(todo) == hi
    requires SameOutside(l0, l1, lo, hi) && SameOutside(l1, l2, at, hi) && Rep(l2, at, Fin(w, at, todo), m, NULL)
    ensures var g := Fin(w, at, todo);
      var at', done' := at + 1 + Size(g.kids), Join(done, Cons(g.kids, Nil));
      && Cursor(l2, lo, done', at', g.rest, m, m) && SameOutside(l0, l2, lo, hi)
      && at < |l2.next| && l2.next[at] == Head(at', g.rest, NULL) && at' + Size(g.rest) == hi
      && Join(done', FinAll(w, at', g.rest)) == Join(done, FinAll(w, at, todo))
  {
    hide Rep, SameOutside, Fin, FinAll, Cursor, Join;
    var g := Fin(w, at, todo);
    var at': nat := at + 1 + Size(g.kids);
    CursorAt(l1, lo, done, at, todo, m, m);
    FinAllIs(w, at, todo);
    SameTwice(l0, l1, l2, lo, hi, at, hi);
    OneOf(l2, at, g, at', m);
    StepOver(l1, l2, lo, done, at, todo, g, at', m, m);
    JoinStep(done, g.kids, FinAll(w, at', g.rest));
  }

  lemma TakeIs(w: World, p: nat, lo: nat, f: Forest)
    ensures f.Nil? || !w.joins(p, lo) ==> Take(w, p, lo, f) == (Nil, f)
    ensures f.Cons? && w.joins(p, lo) ==>
      var g := Fin(w, lo, f);
      var (taken, left) := Take(w, p, lo + 1 + Size(g.kids), g.rest);
      Take(w, p, lo, f) == (Cons(g.kids, taken), left) && Size(f) == 1 + Size(g.kids) + Size(g.rest)
  {}

  /** Another parent for the first of a forest. */
  lemma SetParent(l: Links, at: nat, g: Forest, at': nat, q: int, m: int)
    requires g.Cons? && at' == at + 1 + Size(g.kids) && Rep(l, at, g, q, NULL)
    ensures l.Sized() && at < |l.next|
    ensures var l' := l.(parent := l.parent[at := m]);
      && Rep(l', at, Cons(g.kids, Nil), m, Head(at', g.rest, NULL))
      && Rep(l', at', g.rest, q, NULL) && SameOutside(l, l', at, at + Size(g))
      && l'.next[at] == Head(at', g.rest, NULL)
  {
    hide Rep;
    RepNode(l, at, g, q, NULL);
    var l' := l.(parent := l.parent[at := m]);
    RepNil(l', at', m, Head(at', g.rest, NULL));
    assert Same(l, l', at + 1, |l.next|);
    RepFrame(l, l', at + 1, g.kids, at, NULL);
    RepFrame(l, l', at', g.rest, q, NULL);
    RepNode(l', at, Cons(g.kids, Nil), m, Head(at', g.rest, NULL));
  }

  /** A turn of the loop over the siblings: the cursor's node is finalized, and has parent m. */
  lemma TakeStep(w: World, l0: Links, l1: Links, l2: Links, lo: nat, hi: nat, done: Forest, at: nat,
                 todo: Forest, m: nat, q: int)
    requires Cursor(l1, lo, done, at, todo, m, q) && todo.Cons? && at + Size(todo) == hi && w.joins(m, at)
    requires SameOutside(l0, l1, lo, hi) && SameOutside(l1, l2, at, hi) && Rep(l2, at, Fin(w, at, todo), q, NULL)
    ensures l2.Sized() && at < |l2.next|
    ensures var g, l3 := Fin(w, at, todo), l2.(parent := l2.parent[at := m]);
      var at', done' := at + 1 + Size(g.kids), Join(done, Cons(g.kids, Nil));
      && Cursor(l3, lo, done', at', g.rest, m, q) && SameOutside(l0, l3, lo, hi)
      && l3.next[at] == Head(at', g.rest, NULL) && at' + Size(g.rest) == hi
      && done'.Cons? && Last(lo, done') == at
      && Join(done', Take(w, m, at', g.rest).0) == Join(done, Take(w, m, at, todo).0)
      && Take(w, m, at', g.rest).1 == Take(w, m, at, todo).1
  {
    hide Rep, SameOutside, Fin, Take, Cursor, Join;
    var g := Fin(w, at, todo);
    var at': nat := at + 1 + Size(g.kids);
    CursorAt(l1, lo, done, at, todo, m, q);
    TakeIs(w, m, at, todo);
    SetParent(l2, at, g, at', q, m);
    var l3 := l2.(parent := l2.parent[at := m]);
    SameTwice(l1, l2, l3, at, hi, at, hi);
    SameTwice(l0, l1, l3, lo, hi, at, hi);
    StepOver(l1, l3, lo, done, at, todo, g, at', m, q);
    JoinStep(done, g.kids, Take(w, m, at', g.rest).0);
    LastJoin(lo, done, at, g.kids);
    JoinOne(done, g.kids);
  }

  /** The siblings taken become the children of the node in front of them. */
  lemma Adopt(l0: Links, l: Links, m: nat, f: Forest, done: Forest, at: nat, todo: Forest, last: nat, q: int)
    requires f.Cons? && f.kids.Nil? && f.rest.Cons? && Rep(l0, m, f, q, NULL) && SameOutside(l0, l, m + 1, m + Size(f))
    requires Cursor(l, m + 1, done, at, todo, m, q) && at + Size(todo) == m + Size(f)
    requires done.Cons? && last == Last(m + 1, done)
    ensures l.Sized() && m < |l.next| && last < |l.next|
    ensures var l' := Links(l.next[m := l.next[last]][last := NULL], l.parent, l.list[m := l.next[m]]);
      Rep(l', m, Cons(done, todo), q, NULL) && SameOutside(l0, l', m, m + Size(f))
  {
    hide Rep, Last;
    RepNode(l0, m, f, q, NULL);
    var x := Head(at, todo, NULL);
    RepLast(l, m + 1, done, last, m, x);
    assert SameAt(l0, l, m);
    var l1 := l.(next := l.next[last := NULL]);
    RepTail(l, l1, m + 1, done, last, m, x, NULL);
    var l' := Links(l.next[m := l.next[last]][last := NULL], l.parent, l.list[m := l.next[m]]);
    assert Same(l1, l', m + 1, at) && Same(l, l', at, at + Size(todo));
    RepFrame(l1, l', m + 1, done, m, NULL);
    RepFrame(l, l', at, todo, q, NULL);
    RepNode(l', m, Cons(done, todo), q, NULL);
    AdoptOutside(l0, l, l', m, m + Size(f), last);
  }

  /** Stores to the links of m and of a node behind it. */
  lemma AdoptOutside(l0: Links, l: Links, l': Links, m: nat, hi: nat, last: nat)
    requires SameOutside(l0, l, m + 1, hi) && m < last < hi <= |l.next|
    requires l' == Links(l.next[m := l.next[last]][last := NULL], l.parent, l.list[m := l.next[m]])
    ensures SameOutside(l0, l', m, hi)
  {
    forall k | 0 <= k < |l0.next| && (k < m || k >= hi) ensures SameAt(l0, l', k) {
      assert SameAt(l0, l, k);
    }
  }

  lemma NoneTaken(l0: Links, l: Links, m: nat, f: Forest, todo: Forest, q: int)
    requires f.Cons? && f.kids.Nil? && Rep(l0, m, f, q, NULL) && SameOutside(l0, l, m + 1, m + Size(f))
    requires Rep(l, m + 1, todo, q, NULL) && Size(todo) == Size(f.rest)
    ensures Rep(l, m, Cons(Nil, todo), q, NULL) && SameOutside(l0, l, m, m + Size(f))
  {
    hide Rep;
    RepNode(l0, m, f, q, NULL);
    assert SameAt(l0, l, m);
    RepNil(l, m + 1, m, NULL);
    RepNode(l, m, Cons(Nil, todo), q, NULL);
    forall k | 0 <= k < |l0.next| && (k < m || k >= m + Size(f)) ensures SameAt(l0, l, k) {}
  }

  /** The state of the loop that takes siblings behind node m of forest f. */
  predicate Taking(w: World, l0: Links, l: Links, m: nat, f: Forest, done: Forest, at: nat, todo: Forest,
                   q: int, last: int)
    requires f.Cons?
  {
    && Cursor(l, m + 1, done, at, todo, m, q) && at + Size(todo) == m + Size(f)
    && SameOutside(l0, l, m + 1, m + Size(f))
    && Take(w, m, m + 1, f.rest) == (Join(done, Take(w, m, at, todo).0), Take(w, m, at, todo).1)
    && (if done.Nil? then last == NULL else last == Last(m + 1, done))
  }

  lemma TakingStarts(w: World, l0: Links, m: nat, f: Forest, q: int)
    requires f.Cons? && f.kids.Nil? && Rep(l0, m, f, q, NULL)
    ensures Taking(w, l0, l0, m, f, Nil, m + 1, f.rest, q, NULL)
    ensures l0.Sized() && m < |l0.next| && l0.next[m] == Head(m + 1, f.rest, NULL)
  {
    JoinNil(Take(w, m, m + 1, f.rest).0);
  }

  lemma TakingAt(w: World, l0: Links, l: Links, m: nat, f: Forest, done: Forest, at: nat, todo: Forest,
                 q: int, last: int)
    requires f.Cons? && Taking(w, l0, l, m, f, done, at, todo, q, last)
    ensures l.Sized() && Rep(l, at, todo, q, NULL) && (todo.Cons? ==> at < |l.next|)
  {
    hide Rep, SameOutside, Take, Cursor, Join, Last;
    CursorAt(l, m + 1, done, at, todo, m, q);
  }

  lemma TakingStep(w: World, l0: Links, l1: Links, l2: Links, m: nat, f: Forest, done: Forest, at: nat,
                   todo: Forest, q: int, last: int)
    requires f.Cons? && Taking(w, l0, l1, m, f, done, at, todo, q, last) && todo.Cons? && w.joins(m, at)
    requires SameOutside(l1, l2, at, at + Size(todo)) && Rep(l2, at, Fin(w, at, todo), q, NULL)
    ensures l2.Sized() && at < |l2.next|
    ensures var g, l3 := Fin(w, at, todo), l2.(parent := l2.parent[at := m]);
      var at', done' := at + 1 + Size(g.kids), Join(done, Cons(g.kids, Nil));
      && Taking(w, l0, l3, m, f, done', at', g.rest, q, at) && l3.next[at] == Head(at', g.rest, NULL)
      && Size(g.rest) < Size(todo)
  {
    hide Rep, SameOutside, Fin, Take, Cursor, Join, Last;
    TakeStep(w, l0, l1, l2, m + 1, m + Size(f), done, at, todo, m, q);
  }

  /** When no more siblings join: the relinking behind the loop, if there is anything to relink. */
  lemma TakingEnds(w: World, l0: Links, l: Links, m: nat, f: Forest, done: Forest, at: nat, todo: Forest,
                   q: int, last: int)
    requires f.Cons? && f.kids.Nil? && Rep(l0, m, f, q, NULL) && Taking(w, l0, l, m, f, done, at, todo, q, last)
    requires todo.Nil? || !w.joins(m, at)
    ensures l.Sized() && m < |l.next| && last < |l.next| && last >= NULL
    ensures var l' :=
      if last == NULL then l
      else Links(l.next[m := l.next[last]][last := NULL], l.parent, l.list[m := l.next[m]]);
      Rep(l', m, Cons(Take(w, m, m + 1, f.rest).0, Take(w, m, m + 1, f.rest).1), q, NULL)
      && SameOutside(l0, l', m, m + Size(f))
  {
    hide Rep, SameOutside, Fin, Take, Cursor, Join;
    RepNode(l0, m, f, q, NULL);
    CursorAt(l, m + 1, done, at, todo, m, q);
    TakeIs(w, m, at, todo);
    JoinNil(done);
    if done.Cons? {
      Adopt(l0, l, m, f, done, at, todo, last, q);
    } else {
      NoneTaken(l0, l, m, f, todo, q);
    }
  }

  // ----- flattening -----

  /** What one turn of the last loop makes of the forest from its cursor on. */
  function Lifted(w: World, at: nat, f: Forest): (g: Forest)
    requires f.Cons?
    ensures g.Cons? && Size(g) == Size(f)
  {
    if f.kids.Cons? && !w.prompted(at) then Cons(Nil, Join(f.kids, f.rest)) else f
  }

  predicate Flattening(w: World, l0: Links, l: Links, m: nat, f: Forest, done: Forest, at: nat, todo: Forest)
    requires f.Cons?
  {
    && Cursor(l, m + 1, done, at, todo, m, m) && at + Size(todo) == m + 1 + Size(f.kids)
    && SameOutside(l0, l, m + 1, m + 1 + Size(f.kids))
    && Flatten(w, m + 1, f.kids) == Join(done, Flatten(w, at, todo))
  }

  lemma FlatteningStarts(w: World, l0: Links, m: nat, f: Forest, q: int)
    requires f.Cons? && Rep(l0, m, f, q, NULL)
    ensures Flattening(w, l0, l0, m, f, Nil, m + 1, f.kids)
    ensures l0.Sized() && m < |l0.next| && l0.list[m] == Head(m + 1, f.kids, NULL)
  {
    JoinNil(Flatten(w, m + 1, f.kids));
  }

  lemma FlatteningAt(w: World, l0: Links, l: Links, m: nat, f: Forest, done: Forest, at: nat, todo: Forest)
    requires f.Cons? && todo.Cons? && Flattening(w, l0, l, m, f, done, at, todo)
    ensures l.Sized() && at < |l.next| && Rep(l, at, todo, m, NULL) && (l.list[at] != NULL <==> todo.kids.Cons?)
  {
    hide Flatten, SameOutside, Join;
    CursorAt(l, m + 1, done, at, todo, m, m);
    RepNode(l, at, todo, m, NULL);
  }

  lemma FlattenIs(w: World, at: nat, todo: Forest)
    requires todo.Cons?
    ensures var g := Lifted(w, at, todo);
      && Flatten(w, at, todo) == Cons(g.kids, Flatten(w, at + 1 + Size(g.kids), g.rest))
      && Size(todo) == 1 + Size(g.kids) + Size(g.rest)
  {}

  lemma FlatteningStep(w: World, l0: Links, l1: Links, l2: Links, m: nat, f: Forest, done: Forest, at: nat,
                       todo: Forest)
    requires f.Cons? && todo.Cons? && Flattening(w, l0, l1, m, f, done, at, todo)
    requires SameOutside(l1, l2, at, at + Size(todo)) && Rep(l2, at, Lifted(w, at, todo), m, NULL)
    ensures l2.Sized() && at < |l2.next|
    ensures var g := Lifted(w, at, todo);
      var at', done' := at + 1 + Size(g.kids), Join(done, Cons(g.kids, Nil));
      && Flattening(w, l0, l2, m, f, done', at', g.rest) && l2.next[at] == Head(at', g.rest, NULL)
      && Size(g.rest) < Size(todo)
  {
    hide Rep, SameOutside, Cursor, Join, Flatten, Lifted;
    var g := Lifted(w, at, todo);
    var at': nat := at + 1 + Size(g.kids);
    FlattenIs(w, at, todo);
    OneOf(l2, at, g, at', m);
    CursorAt(l1, m + 1, done, at, todo, m, m);
    SameTwice(l0, l1, l2, m + 1, m + 1 + Size(f.kids), at, at + Size(todo));
    StepOver(l1, l2, m + 1, done, at, todo, g, at', m, m);
    JoinStep(done, g.kids, Flatten(w, at', g.rest));
  }

  lemma FlatteningEnds(w: World, l0: Links, l: Links, m: nat, f: Forest, done: Forest, at: nat, todo: Forest, q: int)
    requires f.Cons? && todo.Nil? && Flattening(w, l0, l, m, f, done, at, todo) && Rep(l0, m, f, q, NULL)
    ensures Rep(l, m, Cons(Flatten(w, m + 1, f.kids), f.rest), q, NULL)
    ensures SameOutside(l0, l, m + 1, m + 1 + Size(f.kids))
  {
    hide Rep, SameOutside, Cursor, Join;
    CursorAt(l, m + 1, done, at, todo, m, m);
    JoinNil(done);
    ReplaceKids(l0, l, m, f, done, q);
  }

  /** The inner loop over the children of `menu`, which get the parent m. */
  predicate Lifting(l0: Links, l: Links, menu: nat, f: Forest, m: nat, done: Forest, at: nat, todo: Forest)
    requires f.Cons?
  {
    && Cursor(l, menu + 1, done, at, todo, m, menu) && at + Size(todo) == menu + 1 + Size(f.kids)
    && SameOutside(l0, l, menu + 1, menu + 1 + Size(f.kids))
    && f.kids == Join(done, todo)
  }

  lemma LiftingStarts(l0: Links, menu: nat, f: Forest, m: nat)
    requires f.Cons? && f.kids.Cons? && Rep(l0, menu, f, m, NULL)
    ensures Lifting(l0, l0, menu, f, m, Nil, menu + 1, f.kids)
    ensures l0.Sized() && menu < |l0.next| && l0.list[menu] == menu + 1
  {
    JoinNil(f.kids);
  }

  lemma LiftingStep(l0: Links, l: Links, menu: nat, f: Forest, m: nat, done: Forest, at: nat, todo: Forest)
    requires f.Cons? && todo.Cons? && Lifting(l0, l, menu, f, m, done, at, todo)
    ensures l.Sized() && at < |l.next|
    ensures var l' := l.(parent := l.parent[at := m]);
      var at', done' := at + 1 + Size(todo.kids), Join(done, Cons(todo.kids, Nil));
      if todo.rest.Cons? then
        Lifting(l0, l', menu, f, m, done', at', todo.rest) && l'.next[at] == at' && Size(todo.rest) < Size(todo)
      else
        && l'.next[at] == NULL && Rep(l', menu + 1, f.kids, m, NULL) && at == Last(menu + 1, f.kids)
        && SameOutside(l0, l', menu + 1, menu + 1 + Size(f.kids))
  {
    hide Rep, SameOutside, Cursor, Join, Last;
    CursorAt(l, menu + 1, done, at, todo, m, menu);
    var at', done' := at + 1 + Size(todo.kids), Join(done, Cons(todo.kids, Nil));
    var l' := l.(parent := l.parent[at := m]);
    SetParent(l, at, todo, at', menu, m);
    SameTwice(l0, l, l', menu + 1, menu + 1 + Size(f.kids), at, at + Size(todo));
    StepOver(l, l', menu + 1, done, at, todo, todo, at', m, menu);
    JoinStep(done, todo.kids, todo.rest);
    if todo.rest.Nil? {
      CursorAt(l', menu + 1, done', at', todo.rest, m, menu);
      LastJoin(menu + 1, done, at, todo.kids);
      assert todo == Cons(todo.kids, Nil);
    }
  }

  /** The three stores behind the inner loop. */
  lemma LiftingEnds(l0: Links, l: Links, menu: nat, f: Forest, m: nat, last: nat)
    requires f.Cons? && f.kids.Cons? && Rep(l0, menu, f, m, NULL)
    requires SameOutside(l0, l, menu + 1, menu + 1 + Size(f.kids))
    requires Rep(l, menu + 1, f.kids, m, NULL) && last == Last(menu + 1, f.kids)
    ensures l.Sized() && menu < last < |l.next|
    ensures var l' := Links(l.next[last := l.next[menu]][menu := l.list[menu]], l.parent, l.list[menu := NULL]);
      Rep(l', menu, Cons(Nil, Join(f.kids, f.rest)), m, NULL) && SameOutside(l0, l', menu, menu + Size(f))
  {
    hide Rep, Last, Join;
    var k: nat, j := menu + 1 + Size(f.kids), Join(f.kids, f.rest);
    RepNode(l0, menu, f, m, NULL);
    assert SameAt(l0, l, menu);
    var l' := Links(l.next[last := l.next[menu]][menu := l.list[menu]], l.parent, l.list[menu := NULL]);
    LiftedKids(l, l', menu, f, m, last);
    LiftedOutside(l0, l, l', menu, k, last);
    assert l'.list[menu] == NULL && l'.next[menu] == menu + 1 && l'.parent[menu] == m;
    hide SameOutside, Same;
    LiftedRest(l0, l', menu, k, f.rest, m);
    RepJoin(l', menu + 1, f.kids, k, f.rest, m, NULL);
    RepNil(l', menu + 1, menu, NULL);
    assert j.Cons? by { JoinFirst(f.kids, f.rest); }
    RepNode(l', menu, Cons(Nil, j), m, NULL);
    SameMore(l0, l', menu, k, menu + Size(f));
  }

  /** The last child gets the next sibling of `menu`. */
  lemma LiftedKids(l: Links, l': Links, menu: nat, f: Forest, m: nat, last: nat)
    requires f.Cons? && f.kids.Cons? && Rep(l, menu + 1, f.kids, m, NULL) && last == Last(menu + 1, f.kids)
    requires l.Sized() && menu < last < |l.next| && l.next[menu] == Head(menu + 1 + Size(f.kids), f.rest, NULL)
    requires l' == Links(l.next[last := l.next[menu]][menu := l.list[menu]], l.parent, l.list[menu := NULL])
    ensures Rep(l', menu + 1, f.kids, m, l.next[menu])
  {
    hide Rep, Last;
    var x := l.next[menu];
    var l1 := l.(next := l.next[last := x]);
    RepTail(l, l1, menu + 1, f.kids, last, m, NULL, x);
    assert Same(l1, l', menu + 1, menu + 1 + Size(f.kids));
    RepFrame(l1, l', menu + 1, f.kids, m, x);
  }

  lemma LiftedOutside(l0: Links, l: Links, l': Links, menu: nat, k: nat, last: nat)
    requires SameOutside(l0, l, menu + 1, k) && menu < last < k <= |l.next|
    requires l' == Links(l.next[last := l.next[menu]][menu := l.list[menu]], l.parent, l.list[menu := NULL])
    ensures SameOutside(l0, l', menu, k)
  {
    forall i | 0 <= i < |l0.next| && (i < menu || i >= k) ensures SameAt(l0, l', i) {
      assert SameAt(l0, l, i);
    }
  }

  lemma LiftedRest(l0: Links, l': Links, menu: nat, k: nat, rest: Forest, m: nat)
    requires SameOutside(l0, l', menu, k) && Rep(l0, k, rest, m, NULL)
    ensures Rep(l', k, rest, m, NULL)
  {
    assert Same(l0, l', k, k + Size(rest));
    RepFrame(l0, l', k, rest, m, NULL);
  }

  lemma JoinFirst(a: Forest, b: Forest)
    ensures Join(a, b).Nil? <==> a.Nil? && b.Nil?
  {}

  lemma SameMore(l: Links, l': Links, lo: nat, hi: nat, hi': nat)
    requires SameOutside(l, l', lo, hi) && hi <= hi'
    ensures SameOutside(l, l', lo, hi')
  {}

  // ----- the walk -----

  /** Parents have smaller numbers than their children. */
  predicate Upward(l: Links) {
    l.Sized() && forall k :: 0 <= k < |l.next| ==> NULL <= l.parent[k] < k
  }

  lemma {:induction false} RepUpward(l: Links, lo: nat, f: Forest, p: int, k: nat)
    requires Rep(l, lo, f, p, NULL) && NULL <= p < lo && lo <= k < lo + Size(f)
    ensures NULL <= l.parent[k] < k
    decreases f
  {
    var at := lo + 1 + Size(f.kids);
    if k > lo {
      if k < at { RepUpward(l, lo + 1, f.kids, lo, k); } else { RepUpward(l, at, f.rest, p, k); }
    }
  }

  /** The next sibling of a node or, if it has none, of the first node above it that has one. */
  function Climb(l: Links, m: nat): int
    requires Upward(l) && m < |l.next|
    decreases m
  {
    if l.next[m] != NULL then l.next[m]
    else if l.parent[m] == NULL then NULL
    else Climb(l, l.parent[m])
  }

  /** Pre-order by pointers: the first child is the next number, and behind a node without children the
      next number is found by climbing, up to the end of the forest.
   */
  lemma {:induction false} ClimbIsNext(l: Links, lo: nat, f: Forest, p: nat, k: nat)
    requires Upward(l) && Rep(l, lo, f, p, NULL) && p < lo <= k < lo + Size(f)
    ensures l.list[k] != NULL ==> l.list[k] == k + 1 < lo + Size(f)
    ensures l.list[k] == NULL ==> Climb(l, k) == if k + 1 < lo + Size(f) then k + 1 else Climb(l, p)
    decreases f
  {
    var at := lo + 1 + Size(f.kids);
    if lo < k < at {
      ClimbIsNext(l, lo + 1, f.kids, lo, k);
    } else if k >= at {
      ClimbIsNext(l, at, f.rest, p, k);
    }
  }

  class MenuTree {
    var next: seq<int>
    var parent: seq<int>
    var list: seq<int>

    ghost function View(): Links
      reads this
    {
      Links(next, parent, list)
    }

    constructor (next: seq<int>, parent: seq<int>, list: seq<int>)
      ensures this.next == next && this.parent == parent && this.list == list
    {
      this.next, this.parent, this.list := next, parent, list;
    }

    /** menu_finalize(m), for the node m whose forest of following siblings is f. */
    method Finalize(w: World, m: nat, ghost f: Forest, ghost q: int)
      requires f.Cons? && Rep(View(), m, f, q, NULL)
      modifies this
      ensures Rep(View(), m, Fin(w, m, f), q, NULL)
      ensures SameOutside(old(View()), View(), m, m + Size(f))
      decreases Size(f), 5
    {
      hide Rep, SameOutside, Flatten, Gathered, Same, Size;
      ghost var l0, g := View(), Gathered(w, m, f);
      Gather(w, m, f, q);
      ghost var l1 := View();
      RepNode(l1, m, g, q, NULL);
      FlattenChildren(w, m, g, q);
      SameTwice(l0, l1, View(), m, m + Size(f), m + 1, m + 1 + Size(g.kids));
    }

    /** What comes before the last loop. */
    method Gather(w: World, m: nat, ghost f: Forest, ghost q: int)
      requires f.Cons? && Rep(View(), m, f, q, NULL)
      modifies this
      ensures Rep(View(), m, Gathered(w, m, f), q, NULL)
      ensures SameOutside(old(View()), View(), m, m + Size(f))
      decreases Size(f), 4
    {
      hide Rep, SameOutside, Gathered, Same, Size;
      HasKids(View(), m, f, q);
      if list[m] != NULL {
        FinalizeChildren(w, m, f, q);
      } else if w.sym(m) {
        AutoSubmenu(w, m, f, q);
      } else {
        NothingGathered(w, m, f);
        NotYet(View(), m, m + Size(f));
      }
    }

    /** The loop over the children. */
    method FinalizeChildren(w: World, m: nat, ghost f: Forest, ghost q: int)
      requires f.Cons? && f.kids.Cons? && Rep(View(), m, f, q, NULL)
      modifies this
      ensures Rep(View(), m, Gathered(w, m, f), q, NULL)
      ensures SameOutside(old(View()), View(), m, m + Size(f))
      decreases Size(f), 0
    {
      hide Rep, SameOutside, Fin, FinAll, Cursor, Join;
      ghost var l0, lo, hi := View(), m + 1, m + 1 + Size(f.kids);
      ghost var done, at: nat, todo := Nil, lo, f.kids;
      RepNode(l0, m, f, q, NULL);
      AtStart(l0, lo, todo, m);
      JoinNil(FinAll(w, lo, todo));
      NotYet(l0, lo, hi);
      var menu := list[m];
      while menu != NULL
        invariant menu == Head(at, todo, NULL) && Cursor(View(), lo, done, at, todo, m, m)
        invariant FinAll(w, lo, f.kids) == Join(done, FinAll(w, at, todo))
        invariant at + Size(todo) == hi && SameOutside(l0, View(), lo, hi)
        decreases Size(todo)
      {
        ghost var l1, g := View(), Fin(w, at, todo);
        CursorAt(l1, lo, done, at, todo, m, m);
        Finalize(w, menu, todo, m);
        ChildStep(w, l0, l1, View(), lo, hi, done, at, todo, m);
        done, at, todo := Join(done, Cons(g.kids, Nil)), at + 1 + Size(g.kids), g.rest;
        menu := next[menu];
      }
      CursorAt(View(), lo, done, at, todo, m, m);
      FinAllIs(w, at, todo);
      JoinNil(done);
      ReplaceKids(l0, View(), m, f, done, q);
      NotYet(l0, m, m + Size(f));
      SameTwice(l0, l0, View(), m, m + Size(f), lo, hi);
    }

    /** The loop over the following siblings, and the relinking behind it. */
    method AutoSubmenu(w: World, m: nat, ghost f: Forest, ghost q: int)
      requires f.Cons? && f.kids.Nil? && w.sym(m) && Rep(View(), m, f, q, NULL)
      modifies this
      ensures Rep(View(), m, Gathered(w, m, f), q, NULL)
      ensures SameOutside(old(View()), View(), m, m + Size(f))
      decreases Size(f), 3
    {
      hide Rep, SameOutside, Fin, Take, Join, Taking, Cursor;
      ghost var l0 := View();
      ghost var done, at: nat, todo := Nil, m + 1, f.rest;
      TakingStarts(w, l0, m, f, q);
      var last := NULL;
      var menu := next[m];
      while menu != NULL
        invariant menu == Head(at, todo, NULL) && Taking(w, l0, View(), m, f, done, at, todo, q, last)
        invariant Size(todo) < Size(f)
        decreases Size(todo)
      {
        TakingAt(w, l0, View(), m, f, done, at, todo, q, last);
        if !w.joins(m, menu) {
          break;
        }
        ghost var l1, g := View(), Fin(w, at, todo);
        Finalize(w, menu, todo, q);
        TakingStep(w, l0, l1, View(), m, f, done, at, todo, q, last);
        parent := parent[menu := m];
        done, at, todo := Join(done, Cons(g.kids, Nil)), at + 1 + Size(g.kids), g.rest;
        last := menu;
        menu := next[menu];
      }
      TakingEnds(w, l0, View(), m, f, done, at, todo, q, last);
      if last != NULL {
        list := list[m := next[m]];
        next := next[m := next[last]];
        next := next[last := NULL];
      }
    }

    /** The last loop: children of promptless children come up. */
    method FlattenChildren(w: World, m: nat, ghost f: Forest, ghost q: int)
      requires f.Cons? && Rep(View(), m, f, q, NULL)
      modifies this
      ensures Rep(View(), m, Cons(Flatten(w, m + 1, f.kids), f.rest), q, NULL)
      ensures SameOutside(old(View()), View(), m + 1, m + 1 + Size(f.kids))
    {
      hide Rep, SameOutside, Flatten, Join, Flattening, Cursor;
      ghost var l0 := View();
      ghost var done, at: nat, todo := Nil, m + 1, f.kids;
      FlatteningStarts(w, l0, m, f, q);
      var menu := list[m];
      while menu != NULL
        invariant menu == Head(at, todo, NULL) && Flattening(w, l0, View(), m, f, done, at, todo)
        decreases Size(todo)
      {
        ghost var l1, g := View(), Lifted(w, at, todo);
        FlatteningAt(w, l0, l1, m, f, done, at, todo);
        NotYet(l1, at, at + Size(todo));
        if list[menu] != NULL && !w.prompted(menu) {
          LiftChildren(menu, todo, m);
        }
        FlatteningStep(w, l0, l1, View(), m, f, done, at, todo);
        done, at, todo := Join(done, Cons(g.kids, Nil)), at + 1 + Size(g.kids), g.rest;
        menu := next[menu];
      }
      FlatteningEnds(w, l0, View(), m, f, done, at, todo, q);
    }

    /** One promptless child: its children get its own parent and come between it and its next sibling. */
    method LiftChildren(menu: nat, ghost f: Forest, m: nat)
      requires f.Cons? && f.kids.Cons? && Rep(View(), menu, f, m, NULL)
      modifies this
      ensures Rep(View(), menu, Cons(Nil, Join(f.kids, f.rest)), m, NULL)
      ensures SameOutside(old(View()), View(), menu, menu + Size(f))
    {
      hide Rep, SameOutside, Join, Lifting, Cursor, Last;
      ghost var l0 := View();
      ghost var done, at: nat, todo := Nil, menu + 1, f.kids;
      LiftingStarts(l0, menu, f, m);
      var last := list[menu];
      while true
        invariant last == at && todo.Cons? && Lifting(l0, View(), menu, f, m, done, at, todo)
        decreases Size(todo)
      {
        LiftingStep(l0, View(), menu, f, m, done, at, todo);
        parent := parent[last := m];
        if next[last] == NULL {
          break;
        }
        done, at, todo := Join(done, Cons(todo.kids, Nil)), at + 1 + Size(todo.kids), todo.rest;
        last := next[last];
      }
      LiftingEnds(l0, View(), menu, f, m, last);
      next := next[last := next[menu]];
      next := next[menu := list[menu]];
      list := list[menu := NULL];
    }

    /** conf_write's walk, without a stack, over the tree below rootmenu: it meets every node once, in
        pre-order, and ends.
     */
    method Walk(ghost kids: Forest) returns (visited: seq<int>)
      requires Rep(View(), 0, Cons(kids, Nil), NULL, NULL) && |next| == 1 + Size(kids)
      ensures |visited| == Size(kids) && forall k :: 0 <= k < Size(kids) ==> visited[k] == k + 1
    {
      ghost var l := View();
      forall k | 0 <= k < |next| ensures NULL <= l.parent[k] < k { RepUpward(l, 0, Cons(kids, Nil), NULL, k); }
      assert Upward(l) && Climb(l, 0) == NULL;
      RepNode(l, 0, Cons(kids, Nil), NULL, NULL);
      hide Rep, Size;
      visited := [];
      var menu := list[0];
      while menu != NULL
        invariant menu == if |visited| < Size(kids) then |visited| + 1 else NULL
        invariant |visited| <= Size(kids) && forall k :: 0 <= k < |visited| ==> visited[k] == k + 1
        decreases Size(kids) - |visited|
      {
        ClimbIsNext(l, 1, kids, 0, menu);
        visited := visited + [menu];
        ghost var here := menu;
        if list[menu] != NULL {
          menu := list[menu];
          continue;
        }
        if next[menu] != NULL {
          menu := next[menu];
        } else {
          menu := parent[menu];
          while menu != NULL
            invariant NULL <= menu < |next|
            invariant Climb(l, here) == if menu == NULL then NULL else Climb(l, menu)
            decreases menu
          {
            if next[menu] != NULL {
              menu := next[menu];
              break;
            }
            menu := parent[menu];
          }
        }
      }
    }

    /** menu_finalize on rootmenu, and later conf_write's walk: the finalized tree has the nodes of the parsed
        one, children only below prompts, and the walk meets them in the order of the Kconfig files.
     */
    method FinalizeAndWalk(w: World, ghost kids: Forest) returns (visited: seq<int>)
      requires Rep(View(), 0, Cons(kids, Nil), NULL, NULL) && |next| == 1 + Size(kids)
      modifies this
      ensures var after := Fin(w, 0, Cons(kids, Nil)).kids;
              Rep(View(), 0, Cons(after, Nil), NULL, NULL) && Size(after) == Size(kids) && AllPrompted(w, 1, after)
      ensures |visited| == Size(kids) && forall k :: 0 <= k < Size(kids) ==> visited[k] == k + 1
    {
      hide Rep, Fin, AllPrompted, SameOutside;
      RootAlone(w, kids);
      ghost var root, l := Cons(kids, Nil), View();
      FinPrompted(w, 0, root);
      Finalize(w, 0, root, NULL);
      SizeKept(l, View(), 0, Size(root));
      visited := Walk(Fin(w, 0, root).kids);
    }
  }

  lemma SizeKept(l: Links, l': Links, lo: nat, hi: nat)
    requires SameOutside(l, l', lo, hi)
    ensures l.Sized() && l'.Sized() && |l'.next| == |l.next|
  {}

  /** The root keeps all nodes below it. */
  lemma RootAlone(w: World, kids: Forest)
    ensures var g := Fin(w, 0, Cons(kids, Nil)); g == Cons(g.kids, Nil) && Size(g.kids) == Size(kids)
  {}

  lemma NotYet(l: Links, lo: nat, hi: nat)
    requires l.Sized()
    ensures SameOutside(l, l, lo, hi)
  {}

  lemma HasKids(l: Links, m: nat, f: Forest, q: int)
    requires f.Cons? && Rep(l, m, f, q, NULL)
    ensures l.Sized() && m < |l.next| && (l.list[m] != NULL <==> f.kids.Cons?)
  {}

  lemma NothingGathered(w: World, m: nat, f: Forest)
    requires f.Cons? && f.kids.Nil? && !w.sym(m)
    ensures Gathered(w, m, f) == f
  {}
}
