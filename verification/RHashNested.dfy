/** The nested bucket array of the hash table (compat/lib-rhashtable.c:64-107, 122-173, 1174-1240):
    a radix tree of pages that stands in for one large array of buckets.

    A page holds 2^shift words. `x >> s` and `x & ((1 << s) - 1)` are written as division and
    remainder by 2^s.
 */
module RHashNested {

  function Pow(b: nat, e: nat): nat {
    if e == 0 then 1 else b * Pow(b, e - 1)
  }

  lemma {:induction false} PowPositive(b: nat, e: nat)
    requires b > 0
    ensures Pow(b, e) > 0
  {
    if e > 0 { PowPositive(b, e - 1); MulPositive(b, Pow(b, e - 1)); }
  }

  lemma MulPositive(a: nat, b: nat)
    requires a > 0 && b > 0
    ensures a * b > 0
  {}

  lemma {:induction false} PowAdd(b: nat, e: nat, f: nat)
    ensures Pow(b, e + f) == Pow(b, e) * Pow(b, f)
  {
    if e > 0 {
      PowAdd(b, e - 1, f);
      MulAssoc(b, Pow(b, e - 1), Pow(b, f));
    }
  }

  lemma MulAssoc(a: nat, b: nat, c: nat)
    ensures (a * b) * c == a * (b * c)
  {}

  lemma {:induction false} PowMul(b: nat, e: nat, f: nat)
    ensures Pow(b, e * f) == Pow(Pow(b, e), f)
  {
    if f > 0 {
      PowMul(b, e, f - 1);
      assert e * f == e + e * (f - 1);
      PowAdd(b, e, e * (f - 1));
    }
  }

  lemma DivMod(a: nat, m: nat)
    requires m > 0
    ensures a == m * (a / m) + a % m && a % m < m
  {}

  lemma DivLess(a: nat, m: nat, n: nat)
    requires m > 0 && a < m * n
    ensures a / m < n
  {
    DivMod(a, m);
    if a / m >= n { MulMono(m, n, a / m); }
  }

  lemma MulMono(m: nat, x: nat, y: nat)
    requires x <= y
    ensures m * x <= m * y
  {}

  lemma DivModUnique(q: nat, r: nat, m: nat)
    requires m > 0 && r < m
    ensures (m * q + r) / m == q && (m * q + r) % m == r
  {
    var a := m * q + r;
    var d := a / m;
    DivMod(a, m);
    assert m * (d + 1) == m * d + m && m * (q + 1) == m * q + m;
    if d < q { MulMono(m, d + 1, q); }
    if d > q { MulMono(m, q + 1, d); }
  }

  lemma Recompose(t: nat, r: nat, u: nat, p: nat)
    requires r < t && u < p
    ensures r + t * u < t * p && (r + t * u) / t == u && (r + t * u) % t == r
  {
    MulMono(t, u + 1, p);
    assert t * (u + 1) == t * u + t;
    DivModUnique(u, r, t);
  }

  /** Page shift, log2 of the number of buckets, and the derived geometry of the tree. */
  datatype Geometry = Geometry(shift: nat, k: nat) {
    /** nested_bucket_table_alloc refuses tables of fewer than 2^(shift+1) buckets. */
    predicate Valid() { shift >= 1 && k >= shift + 1 }

    function Buckets(): nat { Pow(2, k) }

    /** tbl->nest */
    function Nest(): nat
      requires Valid()
    {
      (k - 1) % shift + 1
    }

    function TopLen(): nat
      requires Valid()
    {
      Pow(2, Nest())
    }

    function PageLen(): nat { Pow(2, shift) }

    /** How many pages lie on the way to a bucket, not counting the top one. */
    function Depth(): nat
      requires Valid()
    {
      (k - 1) / shift
    }

    /** tbl->size >> tbl->nest */
    function SubSize(): nat
      requires Valid()
    {
      PowPositive(2, Nest());
      Buckets() / TopLen()
    }
  }

  /** The choice of `nest` makes what is left below the top an exact power of the page length. */
  lemma GeometryFacts(g: Geometry)
    requires g.Valid()
    ensures 1 <= g.Nest() <= g.shift && g.Depth() >= 1
    ensures g.TopLen() > 0 && g.PageLen() >= 2 && g.TopLen() <= g.PageLen()
    ensures g.SubSize() == Pow(g.PageLen(), g.Depth())
    ensures g.Buckets() == g.TopLen() * Pow(g.PageLen(), g.Depth())
  {
    DivMod(g.k - 1, g.shift);
    assert g.k == g.Nest() + g.shift * g.Depth();
    PowAdd(2, g.Nest(), g.shift * g.Depth());
    PowMul(2, g.shift, g.Depth());
    PowPositive(2, g.Nest());
    PowPositive(2, g.shift - 1);
    PowAdd(2, g.Nest(), g.shift - g.Nest());
    PowPositive(2, g.shift - g.Nest());
    MulMono(g.TopLen(), 1, Pow(2, g.shift - g.Nest()));
    DivModUnique(Pow(g.PageLen(), g.Depth()), 0, g.TopLen());
  }

  // ----- addresses -----

  /** Index into each page below the top, the last one being the slot in the leaf page. */
  function Digits(b: nat, l: nat, s: nat): (d: seq<nat>)
    requires b > 0 && l >= 1
    ensures |d| == l
  {
    if l == 1 then [s] else [s % b] + Digits(b, l - 1, s / b)
  }

  function Undigits(b: nat, d: seq<nat>): nat
    requires |d| >= 1
  {
    if |d| == 1 then d[0] else d[0] + b * Undigits(b, d[1..])
  }

  predicate InRange(b: nat, d: seq<nat>) { forall i :: 0 <= i < |d| ==> d[i] < b }

  lemma {:induction false} DigitsInverse(b: nat, l: nat, s: nat)
    requires b > 0 && l >= 1 && s < Pow(b, l)
    ensures InRange(b, Digits(b, l, s)) && Undigits(b, Digits(b, l, s)) == s
  {
    if l == 1 {
      assert Pow(b, 1) == b * Pow(b, 0);
    } else {
      DivMod(s, b);
      DivLess(s, b, Pow(b, l - 1));
      DigitsInverse(b, l - 1, s / b);
      assert Digits(b, l, s)[1..] == Digits(b, l - 1, s / b);
    }
  }

  lemma {:induction false} UndigitsInverse(b: nat, d: seq<nat>)
    requires b > 0 && |d| >= 1 && InRange(b, d)
    ensures Undigits(b, d) < Pow(b, |d|) && Digits(b, |d|, Undigits(b, d)) == d
  {
    if |d| == 1 {
      assert Pow(b, 1) == b * Pow(b, 0);
    } else {
      UndigitsInverse(b, d[1..]);
      Recompose(b, d[0], Undigits(b, d[1..]), Pow(b, |d| - 1));
      assert d == [d[0]] + d[1..];
    }
  }

  /** All the indices used on the way to the bucket of `hash`: top page first. */
  function Address(g: Geometry, hash: nat): (a: seq<nat>)
    requires g.Valid()
    ensures |a| == g.Depth() + 1
  {
    GeometryFacts(g);
    [hash % g.TopLen()] + Digits(g.PageLen(), g.Depth(), hash / g.TopLen())
  }

  predicate ValidAddress(g: Geometry, a: seq<nat>)
    requires g.Valid()
  {
    |a| == g.Depth() + 1 && a[0] < g.TopLen() && InRange(g.PageLen(), a[1..])
  }

  function HashOf(g: Geometry, a: seq<nat>): nat
    requires g.Valid() && |a| >= 2
  {
    a[0] + g.TopLen() * Undigits(g.PageLen(), a[1..])
  }

  /** Every bucket has one valid address, */
  lemma AddressOfHash(g: Geometry, hash: nat)
    requires g.Valid() && hash < g.Buckets()
    ensures g.Depth() >= 1 && ValidAddress(g, Address(g, hash)) && HashOf(g, Address(g, hash)) == hash
  {
    assert g.Depth() >= 1 && g.TopLen() > 0 && g.PageLen() > 0 by { GeometryFacts(g); }
    var t, b, l := g.TopLen(), g.PageLen(), g.Depth();
    var q: nat, r: nat := hash / t, hash % t;
    assert q < Pow(b, l) by { GeometryFacts(g); DivLess(hash, t, Pow(b, l)); }
    assert hash == t * q + r && r < t by { DivMod(hash, t); }
    DigitsInverse(b, l, q);
    assert Address(g, hash) == [r] + Digits(b, l, q);
    assert Address(g, hash)[1..] == Digits(b, l, q);
  }

  /** and every valid address is that of one bucket. */
  lemma HashOfAddress(g: Geometry, a: seq<nat>)
    requires g.Valid() && g.Depth() >= 1 && ValidAddress(g, a)
    ensures HashOf(g, a) < g.Buckets() && Address(g, HashOf(g, a)) == a
  {
    GeometryFacts(g);
    var t, b := g.TopLen(), g.PageLen();
    UndigitsInverse(b, a[1..]);
    Recompose(t, a[0], Undigits(b, a[1..]), Pow(b, g.Depth()));
    assert a == [a[0]] + a[1..];
  }

  // ----- the pages -----

  datatype Option<+T> = None | Some(value: T)

  predicate NoDup(c: seq<nat>) { forall i, j :: 0 <= i < j < |c| ==> c[i] != c[j] }

  /** The memory of the tree; pages have numbers in place of addresses, and the top page is 0.
      `table` is `ntbl[index].table` of each page where it is not NULL, `buckets` the pages whose
      words were initialised as empty buckets. */
  datatype Memory = Memory(table: map<(nat, nat), nat>, buckets: set<nat>, nextPage: nat)

  /** `at` gives the page reached by a sequence of indices from the top. */
  type Layout = map<seq<nat>, nat>

  /** A page's own facts: where it is, that its parent exists, and whether it holds buckets. */
  predicate PageOk(g: Geometry, m: Memory, at: Layout, q: seq<nat>)
    requires g.Valid() && q in at
  {
    && |q| <= g.Depth() && at[q] < m.nextPage
    && (q != [] ==> q[0] < g.TopLen() && InRange(g.PageLen(), q[1..]) && q[..|q| - 1] in at)
    && (at[q] in m.buckets <==> |q| == g.Depth())
  }

  /** Word `i` of the page at `q` points to the page at `q + [i]`, or is NULL if there is none. */
  predicate WordOk(m: Memory, at: Layout, q: seq<nat>, i: nat)
    requires q in at
  {
    && ((at[q], i) in m.table <==> q + [i] in at)
    && ((at[q], i) in m.table ==> m.table[(at[q], i)] == at[q + [i]])
  }

  /** Different positions are different pages. */
  predicate Apart(at: Layout, q: seq<nat>, r: seq<nat>)
    requires q in at && r in at
  {
    at[q] == at[r] ==> q == r
  }

  ghost predicate WellFormed(g: Geometry, m: Memory, at: Layout) {
    && g.Valid()
    && [] in at && at[[]] == 0
    && (forall q {:trigger PageOk(g, m, at, q)} :: q in at ==> PageOk(g, m, at, q))
    && (forall q, i: nat {:trigger WordOk(m, at, q, i)} :: q in at ==> WordOk(m, at, q, i))
    && (forall q, r {:trigger Apart(at, q, r)} :: q in at && r in at ==> Apart(at, q, r))
    && (forall n :: n in m.buckets ==> n < m.nextPage)
    && (forall k :: k in m.table ==> k.0 < m.nextPage)
  }

  lemma {:induction false} Ancestors(g: Geometry, m: Memory, at: Layout, q: seq<nat>, j: nat)
    requires WellFormed(g, m, at) && q in at && j <= |q|
    ensures q[..j] in at
    decreases |q|
  {
    assert PageOk(g, m, at, q);
    if j < |q| {
      Ancestors(g, m, at, q[..|q| - 1], j);
      assert q[..|q| - 1][..j] == q[..j];
    } else {
      assert q[..j] == q;
    }
  }

  /** A walk that ends early ends at a missing page, one that does not ends at a page of buckets. */
  lemma WalkEnds(g: Geometry, m: Memory, at: Layout, a: seq<nat>, j: nat)
    requires WellFormed(g, m, at) && |a| == g.Depth() + 1 && j <= g.Depth()
    ensures a[..g.Depth()] in at ==> a[..j] in at && at[a[..g.Depth()]] in m.buckets
  {
    assert a[..g.Depth()][..j] == a[..j];
    if a[..g.Depth()] in at {
      Ancestors(g, m, at, a[..g.Depth()], j);
      assert PageOk(g, m, at, a[..g.Depth()]);
    }
  }

  /** A page is allocated, and its words are made empty buckets if it is for the last level. */
  function Created(m: Memory, leaf: bool): Memory {
    Memory(m.table, if leaf then m.buckets + {m.nextPage} else m.buckets, m.nextPage + 1)
  }

  /** A word is made to point to a page. */
  function Linked(m: Memory, n: nat, index: nat, page: nat): Memory {
    m.(table := m.table[(n, index) := page])
  }

  /** The page number p belongs to no position and has no words of its own. */
  predicate Aside(m: Memory, at: Layout, p: nat) {
    p < m.nextPage && (forall q :: q in at ==> at[q] != p) && forall k :: k in m.table ==> k.0 != p
  }

  lemma CreatedWellFormed(g: Geometry, m: Memory, at: Layout, leaf: bool)
    requires WellFormed(g, m, at)
    ensures WellFormed(g, Created(m, leaf), at) && Aside(Created(m, leaf), at, m.nextPage)
  {
    var m' := Created(m, leaf);
    forall q | q in at ensures PageOk(g, m', at, q) && at[q] != m.nextPage { assert PageOk(g, m, at, q); }
    forall q, r | q in at && r in at ensures Apart(at, q, r) { assert Apart(at, q, r); }
    forall q, i: nat | q in at ensures WordOk(m', at, q, i) { assert WordOk(m, at, q, i); }
  }

  lemma FreshIsAside(g: Geometry, m: Memory, at: Layout)
    requires WellFormed(g, m, at)
    ensures m.nextPage !in m.buckets
  {}

  lemma LinkedPages(g: Geometry, m: Memory, at: Layout, q: seq<nat>, index: nat, p: nat, r: seq<nat>)
    requires WellFormed(g, m, at) && q in at && |q| < g.Depth() && q + [index] !in at && Aside(m, at, p)
    requires index < if q == [] then g.TopLen() else g.PageLen()
    requires p in m.buckets <==> |q| + 1 == g.Depth()
    requires r in at || r == q + [index]
    ensures PageOk(g, Linked(m, at[q], index, p), at[q + [index] := p], r)
  {
    assert PageOk(g, m, at, q);
    if r in at {
      assert PageOk(g, m, at, r);
    } else {
      assert r[..|r| - 1] == q;
      if q != [] { assert r[1..] == q[1..] + [index]; }
    }
  }

  lemma LinkedWords(g: Geometry, m: Memory, at: Layout, q: seq<nat>, index: nat, p: nat, r: seq<nat>, i: nat)
    requires WellFormed(g, m, at) && q in at && q + [index] !in at && Aside(m, at, p)
    requires r in at || r == q + [index]
    ensures WordOk(Linked(m, at[q], index, p), at[q + [index] := p], r, i)
  {
    assert PageOk(g, m, at, q);
    if r in at {
      assert PageOk(g, m, at, r) && WordOk(m, at, r, i) && Apart(at, r, q);
      if r + [i] == q + [index] { assert r == (q + [index])[..|q|] == q && i == (q + [index])[|q|]; }
    } else {
      assert (r + [i])[..|r|] == r;
      if r + [i] in at { Ancestors(g, m, at, r + [i], |r|); }
    }
  }

  /** Linking a page that is nowhere in the tree at a free word. */
  lemma LinkedWellFormed(g: Geometry, m: Memory, at: Layout, q: seq<nat>, index: nat, p: nat)
    requires WellFormed(g, m, at) && q in at && |q| < g.Depth() && q + [index] !in at && Aside(m, at, p)
    requires index < if q == [] then g.TopLen() else g.PageLen()
    requires p in m.buckets <==> |q| + 1 == g.Depth()
    ensures WellFormed(g, Linked(m, at[q], index, p), at[q + [index] := p])
  {
    var m', at' := Linked(m, at[q], index, p), at[q + [index] := p];
    assert PageOk(g, m, at, q);
    forall r | r in at' ensures PageOk(g, m', at', r) { LinkedPages(g, m, at, q, index, p, r); }
    forall r, i: nat | r in at' ensures WordOk(m', at', r, i) { LinkedWords(g, m, at, q, index, p, r, i); }
    forall r, u | r in at' && u in at' ensures Apart(at', r, u) {
      if r in at && u in at { assert Apart(at, r, u); }
    }
  }

  // ----- the walk, as repeated shifts -----

  /** `s` shifted right by a page length `i` times. */
  function Shift(b: nat, s: nat, i: nat): nat
    requires b > 0
  {
    if i == 0 then s else Shift(b, s, i - 1) / b
  }

  lemma {:induction false} ShiftFirst(b: nat, s: nat, i: nat)
    requires b > 0
    ensures Shift(b, s, i + 1) == Shift(b, s / b, i)
  {
    if i > 0 { ShiftFirst(b, s, i - 1); }
  }

  lemma {:induction false} ShiftPow(b: nat, l: nat, i: nat)
    requires b >= 2 && i <= l
    ensures Shift(b, Pow(b, l), i) == Pow(b, l - i)
  {
    if i > 0 {
      ShiftPow(b, l, i - 1);
      LevelSize(b, l - i + 1);
    }
  }

  lemma {:induction false} DigitsAreShifts(b: nat, l: nat, s: nat, i: nat)
    requires b > 0 && i < l
    ensures Digits(b, l, s)[i] == if i == l - 1 then Shift(b, s, i) else Shift(b, s, i) % b
  {
    if i == 0 {
      assert Shift(b, s, 0) == s;
    } else {
      var q := s / b;
      DigitsAreShifts(b, l - 1, q, i - 1);
      assert Digits(b, l, s)[i] == Digits(b, l - 1, q)[i - 1];
      ShiftFirst(b, s, i - 1);
    }
  }

  /** `x & (len - 1)` and the shift of x by log2 of len. */
  function Mask(x: nat, len: nat): nat
    requires len > 0
  {
    x % len
  }

  function Drop(x: nat, len: nat): nat
    requires len > 0
  {
    x / len
  }

  /** `size` and `subhash` after `j` pages. */
  function SizeAt(g: Geometry, j: nat): nat
    requires g.Valid() && j >= 1
  {
    GeometryFacts(g);
    Shift(g.PageLen(), g.SubSize(), j - 1)
  }

  function SubhashAt(g: Geometry, hash: nat, j: nat): nat
    requires g.Valid() && j >= 1
  {
    GeometryFacts(g);
    Shift(g.PageLen(), hash / g.TopLen(), j - 1)
  }

  lemma SizeFacts(g: Geometry, j: nat)
    requires g.Valid() && 1 <= j <= g.Depth()
    ensures g.PageLen() > 0 && (SizeAt(g, j) > g.PageLen() <==> j < g.Depth())
    ensures SizeAt(g, j + 1) == Drop(SizeAt(g, j), g.PageLen())
  {
    GeometryFacts(g);
    ShiftPow(g.PageLen(), g.Depth(), j - 1);
    LevelSize(g.PageLen(), g.Depth() - j + 1);
  }

  /** The word used in the page at depth `j`, and when the walk is over. */
  lemma WalkAt(g: Geometry, hash: nat, j: nat)
    requires g.Valid() && hash < g.Buckets() && 1 <= j <= g.Depth()
    ensures g.PageLen() > 0 && (SizeAt(g, j) > g.PageLen() <==> j < g.Depth())
    ensures Address(g, hash)[j] < g.PageLen()
    ensures Address(g, hash)[j] ==
            if j < g.Depth() then Mask(SubhashAt(g, hash, j), g.PageLen()) else SubhashAt(g, hash, j)
    ensures SizeAt(g, j + 1) == Drop(SizeAt(g, j), g.PageLen())
    ensures j < g.Depth() ==> (SizeAt(g, j + 1) > g.PageLen() <==> j + 1 < g.Depth())
    ensures SubhashAt(g, hash, j + 1) == Drop(SubhashAt(g, hash, j), g.PageLen())
  {
    GeometryFacts(g);
    AddressOfHash(g, hash);
    ShiftPow(g.PageLen(), g.Depth(), j - 1);
    LevelSize(g.PageLen(), g.Depth() - j + 1);
    if j < g.Depth() {
      ShiftPow(g.PageLen(), g.Depth(), j);
      LevelSize(g.PageLen(), g.Depth() - j);
    }
    DigitsAreShifts(g.PageLen(), g.Depth(), hash / g.TopLen(), j - 1);
    assert Address(g, hash)[j] == Address(g, hash)[1..][j - 1];
  }

  lemma WalkBegins(g: Geometry, hash: nat)
    requires g.Valid() && hash < g.Buckets()
    ensures g.TopLen() > 0 && g.Depth() >= 1
    ensures Address(g, hash)[0] == Mask(hash, g.TopLen()) < g.TopLen()
    ensures SizeAt(g, 1) == g.SubSize() && SubhashAt(g, hash, 1) == Drop(hash, g.TopLen())
    ensures SizeAt(g, 1) > g.PageLen() <==> 1 < g.Depth()
  {
    GeometryFacts(g);
    LevelSize(g.PageLen(), g.Depth());
    DivMod(hash, g.TopLen());
  }

  /** `size > page length` tells interior levels from the last one. */
  lemma LevelSize(b: nat, l: nat)
    requires b >= 2 && l >= 1
    ensures Pow(b, l) > b <==> l > 1
    ensures Pow(b, l) / b == Pow(b, l - 1)
  {
    var rest := Pow(b, l - 1);
    if l > 1 {
      PowPositive(b, l - 2);
      MulMono(b, 1, Pow(b, l - 2));
      MulMono(b, 2, rest);
    }
    DivModUnique(rest, 0, b);
  }

  /** Pages stay where they are, and the new ones lie on the way to `a`, at most `j` deep. */
  ghost predicate Grown(before: Layout, after: Layout, a: seq<nat>, j: nat) {
    && (forall q :: q in before ==> q in after && after[q] == before[q])
    && (forall q :: q in after && q !in before ==> |q| <= j <= |a| && q == a[..|q|])
  }

  lemma GrownStep(before: Layout, at: Layout, after: Layout, a: seq<nat>, j: nat, page: nat)
    requires Grown(before, at, a, j) && j < |a|
    requires after == if a[..j + 1] in at then at else at[a[..j + 1] := page]
    ensures Grown(before, after, a, j + 1)
  {}

  lemma GrownSelf(at: Layout, a: seq<nat>)
    ensures Grown(at, at, a, 0)
  {}

  lemma TopPage(g: Geometry, m: Memory, at: Layout)
    requires WellFormed(g, m, at)
    ensures [] in at && at[[]] == 0
  {}

  function Elements(c: seq<nat>): set<nat> { set x | x in c }

  /** The pages at and below position `p`; and those below the words of `p` before number `j`. */
  function Below(at: Layout, p: seq<nat>): set<nat> { set r | r in at && p <= r :: at[r] }

  function BelowUpTo(at: Layout, p: seq<nat>, j: nat): set<nat> {
    set r | r in at && p < r && r[|p|] < j :: at[r]
  }

  lemma SamePage(g: Geometry, m: Memory, at: Layout, q: seq<nat>, r: seq<nat>)
    requires WellFormed(g, m, at) && q in at && r in at && at[q] == at[r]
    ensures q == r
  {
    assert Apart(at, q, r);
  }

  lemma NoDupConcat(c: seq<nat>, d: seq<nat>)
    requires NoDup(c) && NoDup(d) && forall x :: x in Elements(c) ==> x !in Elements(d)
    ensures NoDup(c + d)
  {
    forall i, j | 0 <= i < j < |c + d| ensures (c + d)[i] != (c + d)[j] {
      if i < |c| <= j {
        assert c[i] in Elements(c) && d[j - |c|] in Elements(d);
      }
    }
  }

  lemma NothingBelow(g: Geometry, m: Memory, at: Layout, p: seq<nat>)
    requires WellFormed(g, m, at) && p !in at
    ensures Below(at, p) == {}
  {
    forall r | r in at ensures !(p <= r) {
      if p <= r {
        assert r[..|p|] == p;
        Ancestors(g, m, at, r, |p|);
      }
    }
  }

  lemma {:induction false} FreeMore(g: Geometry, m: Memory, at: Layout, p: seq<nat>, j: nat,
                                    freed: seq<nat>, more: seq<nat>)
    requires WellFormed(g, m, at) && NoDup(freed) && NoDup(more)
    requires Elements(freed) == BelowUpTo(at, p, j) && Elements(more) == Below(at, p + [j])
    ensures NoDup(freed + more) && Elements(freed + more) == BelowUpTo(at, p, j + 1)
  {
    forall x | x in Elements(freed) ensures x !in Elements(more) {
      if x in Elements(more) {
        var r :| r in at && p < r && r[|p|] < j && at[r] == x;
        var u :| u in at && p + [j] <= u && at[u] == x;
        assert u[|p|] == (p + [j])[|p|] == j;
        SamePage(g, m, at, r, u);
      }
    }
    NoDupConcat(freed, more);
    forall x ensures x in Elements(freed + more) <==> x in BelowUpTo(at, p, j + 1) {
      assert x in Elements(freed + more) <==> x in Elements(freed) || x in Elements(more);
      if x in Below(at, p + [j]) {
        var u :| u in at && p + [j] <= u && at[u] == x;
        assert p < u && u[|p|] == (p + [j])[|p|] == j;
      }
      if x in BelowUpTo(at, p, j + 1) {
        var r :| r in at && p < r && r[|p|] < j + 1 && at[r] == x;
        if r[|p|] == j { assert p + [j] <= r; }
      }
    }
  }

  /** The page itself comes after everything below it. */
  lemma FreeSelf(g: Geometry, m: Memory, at: Layout, p: seq<nat>, freed: seq<nat>)
    requires WellFormed(g, m, at) && p in at && p != [] && NoDup(freed)
    requires Elements(freed) == if |p| < g.Depth() then BelowUpTo(at, p, g.PageLen()) else {}
    ensures NoDup(freed + [at[p]]) && Elements(freed + [at[p]]) == Below(at, p)
  {
    SelfLast(g, m, at, p, g.PageLen(), freed);
  }

  lemma TopSelf(g: Geometry, m: Memory, at: Layout, freed: seq<nat>)
    requires WellFormed(g, m, at) && NoDup(freed) && Elements(freed) == BelowUpTo(at, [], g.TopLen())
    ensures NoDup(freed + [0]) && Elements(freed + [0]) == at.Values
  {
    GeometryFacts(g);
    SelfLast(g, m, at, [], g.TopLen(), freed);
    assert Below(at, []) == at.Values;
  }

  lemma SelfLast(g: Geometry, m: Memory, at: Layout, p: seq<nat>, len: nat, freed: seq<nat>)
    requires WellFormed(g, m, at) && p in at && NoDup(freed)
    requires len == if p == [] then g.TopLen() else g.PageLen()
    requires Elements(freed) == if |p| < g.Depth() then BelowUpTo(at, p, len) else {}
    ensures NoDup(freed + [at[p]]) && Elements(freed + [at[p]]) == Below(at, p)
  {
    forall x ensures x in Elements(freed) <==> x in Below(at, p) && x != at[p] {
      if x in Elements(freed) {
        var r :| r in at && p < r && at[r] == x;
        assert Apart(at, p, r);
      }
      if x in Below(at, p) && x != at[p] {
        var r :| r in at && p <= r && at[r] == x;
        assert PageOk(g, m, at, r);
        assert r == r[..|r|] && p == r[..|p|];
        assert |p| < |r| <= g.Depth();
        assert p != [] ==> r[|p|] == r[1..][|p| - 1];
      }
    }
    assert forall x :: x in Elements(freed + [at[p]]) <==> x in Elements(freed) || x == at[p];
    assert at[p] !in Elements(freed);
  }

  /** The tree of pages. */
  class NestedTable {
    const g: Geometry
    var m: Memory
    ghost var at: Layout

    ghost predicate Valid()
      reads this
    {
      WellFormed(g, m, at)
    }

    constructor (g: Geometry)
      requires g.Valid()
      ensures Valid() && this.g == g && at == map[[] := 0]
    {
      GeometryFacts(g);
      this.g := g;
      m := Memory(map[], {}, 1);
      at := map[[] := 0];
    }

    /** The word for `hash` in its leaf page, or nothing while that page is missing. */
    ghost function Slot(hash: nat): Option<(nat, nat)>
      requires Valid() && hash < g.Buckets()
      reads this
    {
      var a := Address(g, hash);
      if a[..g.Depth()] in at then Some((at[a[..g.Depth()]], a[g.Depth()])) else None
    }

    /** __rht_bucket_nested */
    method Lookup(hash: nat) returns (r: Option<(nat, nat)>)
      requires Valid() && hash < g.Buckets()
      ensures r == Slot(hash)
      ensures r.Some? ==> r.value.0 in m.buckets && r.value.1 < g.PageLen()
    {
      ghost var a := Address(g, hash);
      WalkBegins(g, hash);
      hide Address, SizeAt, SubhashAt, Mask, Drop;
      var index: nat := Mask(hash, g.TopLen());
      var size: nat := g.SubSize();
      var n := if (0, index) in m.table then Some(m.table[(0, index)]) else None;
      var subhash: nat := Drop(hash, g.TopLen());
      ghost var j: nat := 1;
      assert a[..1] == [] + [index];
      assert WordOk(m, at, [], index);
      while n.Some? && size > g.PageLen()
        invariant 1 <= j <= g.Depth() && size == SizeAt(g, j) && subhash == SubhashAt(g, hash, j)
        invariant n == if a[..j] in at then Some(at[a[..j]]) else None
        decreases g.Depth() - j
      {
        WalkAt(g, hash, j);
        index := Mask(subhash, g.PageLen());
        assert a[..j + 1] == a[..j] + [index];
        assert WordOk(m, at, a[..j], index);
        n := if (n.value, index) in m.table then Some(m.table[(n.value, index)]) else None;
        size := Drop(size, g.PageLen());
        subhash := Drop(subhash, g.PageLen());
        j := j + 1;
      }
      WalkAt(g, hash, j);
      WalkEnds(g, m, at, a, j);
      r := if n.None? then None else Some((n.value, subhash));
    }

    /** nested_table_alloc, unraced: the page behind a word, created if there is none. */
    method Alloc(n: nat, index: nat, leaf: bool, ghost q: seq<nat>) returns (page: nat)
      requires Valid() && q in at && at[q] == n && |q| < g.Depth()
      requires index < if q == [] then g.TopLen() else g.PageLen()
      requires leaf <==> |q| + 1 == g.Depth()
      modifies this
      ensures Valid() && q + [index] in at && page == at[q + [index]]
      ensures at == if q + [index] in old(at) then old(at) else old(at)[q + [index] := old(m.nextPage)]
    {
      assert WordOk(m, at, q, index);
      if (n, index) in m.table {
        return m.table[(n, index)];
      }
      FreshIsAside(g, m, at);
      CreatedWellFormed(g, m, at, leaf);
      page := m.nextPage;
      m := Created(m, leaf);
      hide WellFormed, Aside;
      LinkedWellFormed(g, m, at, q, index, page);
      m := Linked(m, n, index, page);
      at := at[q + [index] := page];
    }

    /** One page further on the way to a. */
    method Descend(n: nat, index: nat, leaf: bool, ghost a: seq<nat>, ghost j: nat, ghost before: Layout)
      returns (page: nat)
      requires Valid() && j < g.Depth() < |a| && a[..j] in at && n == at[a[..j]] && index == a[j]
      requires index < if j == 0 then g.TopLen() else g.PageLen()
      requires (leaf <==> j + 1 == g.Depth()) && Grown(before, at, a, j)
      modifies this
      ensures Valid() && a[..j + 1] in at && page == at[a[..j + 1]] && Grown(before, at, a, j + 1)
    {
      hide WellFormed, Grown;
      assert a[..j + 1] == a[..j] + [index];
      ghost var at0, page0 := at, m.nextPage;
      page := Alloc(n, index, leaf, a[..j]);
      GrownStep(before, at0, at, a, j, page0);
    }

    /** rht_bucket_nested_insert: the same walk as Lookup, creating the pages that are missing. */
    method Insert(hash: nat) returns (r: (nat, nat))
      requires Valid() && hash < g.Buckets()
      modifies this
      ensures Valid() && Slot(hash) == Some(r)
      ensures Grown(old(at), at, Address(g, hash), g.Depth())
    {
      ghost var a := Address(g, hash);
      WalkBegins(g, hash);
      GrownSelf(at, a);
      TopPage(g, m, at);
      assert a[..0] == [];
      hide Grown, WellFormed, Address, SizeAt, SubhashAt, Mask, Drop;
      var index: nat := Mask(hash, g.TopLen());
      var size: nat := g.SubSize();
      var subhash: nat := Drop(hash, g.TopLen());
      ghost var j: nat := 1;
      var n := Descend(0, index, size <= g.PageLen(), a, 0, old(at));
      while size > g.PageLen()
        invariant Valid() && 1 <= j <= g.Depth() && size == SizeAt(g, j) && subhash == SubhashAt(g, hash, j)
        invariant a[..j] in at && n == at[a[..j]]
        invariant Grown(old(at), at, a, j)
        decreases g.Depth() - j
      {
        WalkAt(g, hash, j);
        index := Mask(subhash, g.PageLen());
        size := Drop(size, g.PageLen());
        subhash := Drop(subhash, g.PageLen());
        n := Descend(n, index, size <= g.PageLen(), a, j, old(at));
        j := j + 1;
      }
      WalkAt(g, hash, j);
      r := (n, subhash);
    }

    /** nested_table_free on one word: releases the page behind it and all pages below that one. */
    method FreeWord(n: nat, i: nat, size: nat, ghost q: seq<nat>) returns (freed: seq<nat>)
      requires Valid() && q in at && at[q] == n && |q| < g.Depth() && size == SizeAt(g, |q| + 1)
      ensures NoDup(freed) && Elements(freed) == Below(at, q + [i])
      decreases g.Depth() - |q|
    {
      ghost var p := q + [i];
      assert WordOk(m, at, q, i);
      if (n, i) !in m.table {
        NothingBelow(g, m, at, p);
        return [];
      }
      SizeFacts(g, |p|);
      freed := [];
      if size > g.PageLen() {
        for j := 0 to g.PageLen()
          invariant NoDup(freed) && Elements(freed) == BelowUpTo(at, p, j)
        {
          var more := FreeWord(m.table[(n, i)], j, Drop(size, g.PageLen()), p);
          FreeMore(g, m, at, p, j, freed, more);
          freed := freed + more;
        }
      }
      FreeSelf(g, m, at, p, freed);
      freed := freed + [m.table[(n, i)]];
    }

    /** nested_bucket_table_free: every page of the tree is released exactly once. */
    method FreeAll() returns (freed: seq<nat>)
      requires Valid()
      ensures NoDup(freed) && Elements(freed) == at.Values
    {
      WalkSizes(g);
      freed := [];
      for i := 0 to g.TopLen()
        invariant NoDup(freed) && Elements(freed) == BelowUpTo(at, [], i)
      {
        var more := FreeWord(0, i, g.SubSize(), []);
        FreeMore(g, m, at, [], i, freed, more);
        freed := freed + more;
      }
      TopSelf(g, m, at, freed);
      freed := freed + [0];
    }
  }

  lemma WalkSizes(g: Geometry)
    requires g.Valid()
    ensures g.Depth() >= 1 && SizeAt(g, 1) == g.SubSize()
  {
    GeometryFacts(g);
  }

  /** Different buckets never share a word, whatever pages exist. */
  lemma SlotsDistinct(g: Geometry, m: Memory, at: Layout, h1: nat, h2: nat)
    requires WellFormed(g, m, at) && h1 < g.Buckets() && h2 < g.Buckets() && h1 != h2
    ensures var a1, a2 := Address(g, h1), Address(g, h2);
            a1[..g.Depth()] in at && a2[..g.Depth()] in at ==>
              (at[a1[..g.Depth()]], a1[g.Depth()]) != (at[a2[..g.Depth()]], a2[g.Depth()])
  {
    var a1, a2 := Address(g, h1), Address(g, h2);
    AddressOfHash(g, h1);
    AddressOfHash(g, h2);
    assert a1 == a1[..g.Depth()] + [a1[g.Depth()]] && a2 == a2[..g.Depth()] + [a2[g.Depth()]];
    if a1[..g.Depth()] in at && a2[..g.Depth()] in at {
      assert Apart(at, a1[..g.Depth()], a2[..g.Depth()]);
    }
  }
}
