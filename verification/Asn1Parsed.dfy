/** What the BER decoder has read so far, as data values of ITU-T X.690 (sections 8.1.2, 8.1.3 and 8.1.5): lists of
    complete values with the headers of the open constructed values between them.
 */
module Asn1Parsed {
  import opened Asn1Indefinite

  datatype Option<+T> = None | Some(value: T)

  /** The octets from p to q are one data value. */
  ghost predicate ElementAt(d: seq<byte>, p: nat, q: nat) {
    p <= q <= |d| && exists e :: ValidElement(e) && d[p..q] == Octets(e)
  }

  /** An identifier octet at p, and the length octets from there to s of a value that ends at `end`. */
  predicate HeaderAt(d: seq<byte>, p: nat, s: nat, end: Option<nat>) {
    && p + 2 <= s <= |d| && Identifier([d[p]])
    && match end
       case None => Constructed(d[p]) && d[p + 1..s] == [128]
       case Some(e) => s <= e && LengthOctets(d[p + 1..s], e - s)
  }

  /** What one round of the machine does to the cursor and to the open values. */
  datatype Move = Stay | Leaf | Open(end: Option<nat>) | Close | Odd

  /** A definite value ends exactly where its header says; an indefinite one with end-of-contents. */
  predicate Closes(d: seq<byte>, end: Option<nat>, before: nat, dp: nat) {
    match end
    case Some(e) => dp == before == e
    case None => dp == before + 2 <= |d| && d[before..dp] == EOC
  }

  ghost predicate Made(m: Move, d: seq<byte>, dp0: nat, starts0: seq<nat>, ends0: seq<Option<nat>>,
                       dp: nat, starts: seq<nat>, ends: seq<Option<nat>>) {
    match m
    case Stay => dp == dp0 && starts == starts0 && ends == ends0
    case Leaf => starts == starts0 && ends == ends0 && ElementAt(d, dp0, dp)
    case Open(end) => starts == starts0 + [dp] && ends == ends0 + [end] && HeaderAt(d, dp0, dp, end)
    case Close =>
      && ends0 != [] && |starts0| == |ends0|
      && ends == ends0[..|ends0| - 1] && starts == starts0[..|ends0| - 1]
      && Closes(d, ends0[|ends0| - 1], dp0, dp)
    case Odd => true
  }

  /** The octets from p to q are the values `es`. */
  ghost predicate Piece(d: seq<byte>, p: nat, q: nat, es: seq<Element>) {
    p <= q <= |d| && ValidAll(es) && d[p..q] == OctetsAll(es)
  }

  function From(starts: seq<nat>, i: nat): nat
    requires i <= |starts|
  {
    if i == 0 then 0 else starts[i - 1]
  }

  /** Open value number i: the complete values before it, and its header, which begins at heads[i]. */
  ghost predicate Opened(d: seq<byte>, heads: seq<nat>, starts: seq<nat>, ends: seq<Option<nat>>,
                         done: seq<seq<Element>>, i: nat)
    requires i < |heads| == |starts| == |ends| && |done| == |heads| + 1
  {
    Piece(d, From(starts, i), heads[i], done[i]) && HeaderAt(d, heads[i], starts[i], ends[i])
  }

  ghost predicate Parsed(d: seq<byte>, heads: seq<nat>, starts: seq<nat>, ends: seq<Option<nat>>,
                         done: seq<seq<Element>>, dp: nat) {
    && |heads| == |starts| == |ends| && |done| == |heads| + 1
    && (forall i :: 0 <= i < |heads| ==> Opened(d, heads, starts, ends, done, i))
    && Piece(d, From(starts, |starts|), dp, done[|heads|])
  }

  lemma {:induction false} AllAppend(es: seq<Element>, e: Element)
    requires ValidAll(es) && ValidElement(e)
    ensures ValidAll(es + [e]) && OctetsAll(es + [e]) == OctetsAll(es) + Octets(e)
  {
    if es == [] {
      assert es + [e] == [e] && [e][1..] == [];
    } else {
      AllAppend(es[1..], e);
      assert (es + [e])[1..] == es[1..] + [e];
    }
  }

  lemma PieceAppend(d: seq<byte>, p: nat, q: nat, r: nat, es: seq<Element>, e: Element)
    requires Piece(d, p, q, es) && q <= r <= |d| && ValidElement(e) && d[q..r] == Octets(e)
    ensures Piece(d, p, r, es + [e])
  {
    AllAppend(es, e);
    assert d[p..r] == d[p..q] + d[q..r];
  }

  /** The octet 00 is kept for end-of-contents: no value begins with it. */
  lemma ElementHead(d: seq<byte>, p: nat, q: nat)
    requires ElementAt(d, p, q)
    ensures p < q && d[p] != 0
  {
    var e :| ValidElement(e) && d[p..q] == Octets(e);
    assert Octets(e)[0] == e.id[0];
    assert d[p..q][0] == d[p];
  }

  /** A value with a definite length. */
  lemma DefiniteAt(d: seq<byte>, p: nat, s: nat, e: nat)
    requires HeaderAt(d, p, s, Some(e)) && e <= |d|
    ensures ElementAt(d, p, e)
  {
    var v := Definite([d[p]], d[p + 1..s], d[s..e]);
    assert d[p..e] == Octets(v);
  }

  /** A value with an indefinite length, whose end the scan has found. */
  lemma IndefiniteAt(d: seq<byte>, m: nat, p: nat, s: nat, q: nat)
    requires HeaderAt(d, p, s, None) && s <= m <= |d| && Scan(d[..m], s, 1) == Ok(q)
    ensures ElementAt(d, p, q)
  {
    ScanExact(d[..m], s, q);
    var es :| ValidAll(es) && d[..m][s..q] == OctetsAll(es) + EOC;
    hide Scan, OctetsAll, ValidAll;
    SliceOfTake(d, m, s, q);
    IndefiniteOctets(d, p, s, q, es);
  }

  lemma IndefiniteOctets(d: seq<byte>, p: nat, s: nat, q: nat, es: seq<Element>)
    requires HeaderAt(d, p, s, None) && s <= q <= |d| && ValidAll(es) && d[s..q] == OctetsAll(es) + EOC
    ensures ElementAt(d, p, q)
  {
    var v := Indefinite([d[p]], es);
    assert d[p..q] == [d[p]] + d[p + 1..s] + d[s..q];
    assert ValidElement(v) && d[p..q] == Octets(v);
  }

  /** An open value whose contents are complete, with its header, is a data value. */
  lemma ClosedElement(d: seq<byte>, h: nat, s: nat, end: Option<nat>, es: seq<Element>, dp: nat, dp': nat)
    requires HeaderAt(d, h, s, end) && Piece(d, s, dp, es) && Closes(d, end, dp, dp')
    ensures ElementAt(d, h, dp')
  {
    if end.Some? {
      DefiniteAt(d, h, s, dp');
    } else {
      assert d[s..dp'] == d[s..dp] + d[dp..dp'];
      IndefiniteOctets(d, h, s, dp', es);
    }
  }

  // ----- the rounds -----

  /** One more value at the innermost level. */
  lemma ParsedLeaf(d: seq<byte>, heads: seq<nat>, starts: seq<nat>, ends: seq<Option<nat>>,
                   done: seq<seq<Element>>, dp: nat, dp': nat) returns (done': seq<seq<Element>>)
    requires Parsed(d, heads, starts, ends, done, dp) && ElementAt(d, dp, dp')
    ensures Parsed(d, heads, starts, ends, done', dp')
  {
    var e :| ValidElement(e) && d[dp..dp'] == Octets(e);
    hide Piece, HeaderAt;
    var n := |heads|;
    done' := done[n := done[n] + [e]];
    PieceAppend(d, From(starts, n), dp, dp', done[n], e);
    forall i | 0 <= i < n ensures Opened(d, heads, starts, ends, done', i) {
      assert Opened(d, heads, starts, ends, done, i);
    }
  }

  lemma ParsedOpen(d: seq<byte>, heads: seq<nat>, starts: seq<nat>, ends: seq<Option<nat>>,
                   done: seq<seq<Element>>, dp: nat, end: Option<nat>, s: nat)
    requires Parsed(d, heads, starts, ends, done, dp) && HeaderAt(d, dp, s, end)
    ensures Parsed(d, heads + [dp], starts + [s], ends + [end], done + [[]], s)
  {
    var n := |heads|;
    assert Piece(d, s, s, []);
    hide HeaderAt, Piece;
    forall i | 0 <= i < n + 1 ensures Opened(d, heads + [dp], starts + [s], ends + [end], done + [[]], i) {
      if i < n { assert Opened(d, heads, starts, ends, done, i); }
    }
  }

  lemma ParsedClose(d: seq<byte>, heads: seq<nat>, starts: seq<nat>, ends: seq<Option<nat>>,
                    done: seq<seq<Element>>, dp: nat, dp': nat) returns (done': seq<seq<Element>>)
    requires Parsed(d, heads, starts, ends, done, dp) && ends != [] && Closes(d, ends[|ends| - 1], dp, dp')
    ensures var n := |ends| - 1; Parsed(d, heads[..n], starts[..n], ends[..n], done', dp')
  {
    var n := |ends| - 1;
    assert Opened(d, heads, starts, ends, done, n);
    hide Piece, HeaderAt;
    ClosedElement(d, heads[n], starts[n], ends[n], done[n + 1], dp, dp');
    var h, s, o, f := heads[..n], starts[..n], ends[..n], done[..n + 1];
    forall i | 0 <= i < n ensures Opened(d, h, s, o, f, i) {
      assert Opened(d, heads, starts, ends, done, i);
    }
    assert Parsed(d, h, s, o, f, heads[n]);
    done' := ParsedLeaf(d, h, s, o, f, heads[n], dp');
  }

  /** Whatever a round does, the octets read so far stay a list of values and open headers. */
  lemma ParsedMove(m: Move, d: seq<byte>, heads: seq<nat>, starts: seq<nat>, ends: seq<Option<nat>>,
                   done: seq<seq<Element>>, dp: nat, starts': seq<nat>, ends': seq<Option<nat>>, dp': nat)
      returns (heads': seq<nat>, done': seq<seq<Element>>)
    requires Parsed(d, heads, starts, ends, done, dp) && m != Odd
    requires Made(m, d, dp, starts, ends, dp', starts', ends')
    ensures Parsed(d, heads', starts', ends', done', dp')
  {
    assert |heads| == |ends| < |done|;
    hide Parsed, HeaderAt;
    heads', done' := heads, done;
    match m
    case Stay =>
    case Leaf =>
      done' := ParsedLeaf(d, heads, starts, ends, done, dp, dp');
    case Open(end) =>
      ParsedOpen(d, heads, starts, ends, done, dp, end, dp');
      heads', done' := heads + [dp], done + [[]];
    case Close =>
      done' := ParsedClose(d, heads, starts, ends, done, dp, dp');
      heads' := heads[..|ends| - 1];
  }

  /** Some list of values makes up the octets up to dp. */
  ghost predicate WellFormed(d: seq<byte>, dp: nat) {
    dp <= |d| && exists es :: ValidAll(es) && d[..dp] == OctetsAll(es)
  }

  lemma ParsedToTheEnd(d: seq<byte>, heads: seq<nat>, starts: seq<nat>, ends: seq<Option<nat>>,
                       done: seq<seq<Element>>, dp: nat)
    requires Parsed(d, heads, starts, ends, done, dp) && ends == []
    ensures WellFormed(d, dp)
  {
    assert d[0..dp] == d[..dp] && ValidAll(done[0]);
  }

  /** Data that is a list of values begins with one. */
  lemma FirstElement(d: seq<byte>, dp: nat) returns (q: nat)
    requires WellFormed(d, dp) && dp > 0
    ensures q <= dp && ElementAt(d, 0, q)
  {
    var es :| ValidAll(es) && d[..dp] == OctetsAll(es);
    q := |Octets(es[0])|;
    assert d[0..q] == d[..dp][..q] == Octets(es[0]);
  }

  /** A value of a definite length takes that many octets. */
  lemma FirstLength(d: seq<byte>, q: nat)
    requires ElementAt(d, 0, q) && |d| >= 2 && d[0] % 32 != 31 && d[1] < 128
    ensures q == 2 + d[1]
  {
    var e :| ValidElement(e) && d[0..q] == Octets(e);
    assert d[0..q][0] == d[0] && Octets(e)[0] == e.id[0];
    match e
    case Definite(id, l, contents) => assert q > 1 && d[0..q][1] == d[1] == l[0];
    case Indefinite(id, inner) => assert q > 1 && d[0..q][1] == d[1] == (id + [128])[1];
  }
}
