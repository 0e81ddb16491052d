/** Finding the end of an indefinite-length BER element (compat/lib-asn1_decoder.c:49-140), and the
    recursive grammar of ITU-T X.690 that the flat scan decides: identifier octets (section 8.1.2),
    length octets (sections 8.1.3.3 to 8.1.3.6), contents ended by end-of-contents (section 8.1.5).
 */
module Asn1Indefinite {

  type byte = x: int | 0 <= x < 256

  datatype Error = MissingEoc | DataOverrun | InvalidEoc | LengthTooLong | IndefinitePrimitive
  datatype Result<+T> = Ok(value: T) | Fail(error: Error)

  /** Where the contents start, and their length; no length means indefinite. */
  datatype Header = Header(body: nat, indefinite: bool, len: nat)

  /** The number written in the `n` octets from position `i` on. */
  function BigEndian(d: seq<byte>, i: nat, n: nat): nat
    requires i + n <= |d|
  {
    if n == 0 then 0 else BigEndian(d, i, n - 1) * 256 + d[i + n - 1]
  }

  predicate Constructed(tag: byte) { tag / 32 % 2 == 1 }

  // ----- the scan as a function of the position in the data `d` -----

  /** The end of the identifier octets of a long tag; one length octet must still follow. */
  function LongTag(d: seq<byte>, i: nat): (r: Result<nat>)
    requires i <= |d|
    ensures r.Ok? ==> i < r.value < |d|
    decreases |d| - i
  {
    if |d| - i < 2 then Fail(DataOverrun)
    else if d[i] >= 128 then LongTag(d, i + 1)
    else Ok(i + 1)
  }

  /** Length octets at `t`, for the element whose tag is at `p`. */
  function ParseLength(d: seq<byte>, p: nat, t: nat): (r: Result<Header>)
    requires p < t < |d|
    ensures r.Ok? ==> t < r.value.body <= |d|
  {
    var len := d[t];
    if len < 128 then Ok(Header(t + 1, false, len))
    else if len == 128 then
      if Constructed(d[p]) then Ok(Header(t + 1, true, 0)) else Fail(IndefinitePrimitive)
    else
      var n := len - 128;
      if n > 7 then Fail(LengthTooLong)
      else if n > |d| - (t + 1) then Fail(DataOverrun)
      else Ok(Header(t + 1 + n, false, BigEndian(d, t + 1, n)))
  }

  function ParseHeader(d: seq<byte>, p: nat): (r: Result<Header>)
    requires p + 2 <= |d|
    ensures r.Ok? ==> p + 2 <= r.value.body <= |d|
  {
    var t := if d[p] % 32 == 31 then LongTag(d, p + 1) else Ok(p + 1);
    match t
    case Fail(e) => Fail(e)
    case Ok(i) => ParseLength(d, p, i)
  }

  datatype Step = Stop(r: Result<nat>) | Go(p: nat, level: nat)

  /** One round of the scan, at position `p` with `level` levels open. */
  function Round(d: seq<byte>, p: nat, level: nat): (r: Step)
    requires p <= |d| && level >= 1
    ensures r.Go? ==> p < r.p <= |d| && r.level >= 1
    ensures r.Stop? && r.r.Ok? ==> p < r.r.value <= |d|
  {
    if |d| - p < 2 then Stop(Fail(if |d| == p then MissingEoc else DataOverrun))
    else if d[p] == 0 then
      if d[p + 1] != 0 then Stop(Fail(InvalidEoc))
      else if level == 1 then Stop(Ok(p + 2))
      else Go(p + 2, level - 1)
    else
      match ParseHeader(d, p)
      case Fail(e) => Stop(Fail(e))
      case Ok(h) =>
        if h.indefinite then Go(h.body, level + 1)
        else if h.len > |d| - h.body then Stop(Fail(DataOverrun))
        else Go(h.body + h.len, level)
  }

  /** The position after the end-of-contents that closes the outermost of `level` open levels. */
  function Scan(d: seq<byte>, p: nat, level: nat): (r: Result<nat>)
    requires p <= |d| && level >= 1
    ensures r.Ok? ==> p < r.value <= |d|
    decreases |d| - p
  {
    match Round(d, p, level)
    case Stop(r) => r
    case Go(q, l) => Scan(d, q, l)
  }

  // ----- the code -----

  lemma {:induction false} BigEndianSame(d: seq<byte>, i: nat, e: seq<byte>, j: nat, n: nat)
    requires i + n <= |d| && j + n <= |e| && d[i..i + n] == e[j..j + n]
    ensures BigEndian(d, i, n) == BigEndian(e, j, n)
  {
    if n > 0 {
      var x, y := d[i..i + n], e[j..j + n];
      assert x[..n - 1] == d[i..i + n - 1];
      assert y[..n - 1] == e[j..j + n - 1];
      assert d[i + n - 1] == x[n - 1] == y[n - 1] == e[j + n - 1];
      BigEndianSame(d, i, e, j, n - 1);
    }
  }

  function Pow256(n: nat): nat { if n == 0 then 1 else 256 * Pow256(n - 1) }

  lemma {:induction false} BigEndianBound(d: seq<byte>, i: nat, n: nat)
    requires i + n <= |d|
    ensures BigEndian(d, i, n) < Pow256(n)
  {
    if n > 0 { BigEndianBound(d, i, n - 1); }
  }

  lemma {:induction false} Pow256Mono(m: nat, n: nat)
    requires m <= n
    ensures 1 <= Pow256(m) <= Pow256(n)
  {
    if m > 0 { Pow256Mono(m - 1, n - 1); } else if n > 0 { Pow256Mono(m, n - 1); }
  }

  lemma Pow256Of7()
    ensures Pow256(7) == 0x100_0000_0000_0000
  {
    assert Pow256(1) == 256;
    assert Pow256(2) == 256 * Pow256(1) == 0x1_0000;
    assert Pow256(3) == 256 * Pow256(2) == 0x100_0000;
    assert Pow256(4) == 256 * Pow256(3) == 0x1_0000_0000;
    assert Pow256(5) == 256 * Pow256(4) == 0x100_0000_0000;
    assert Pow256(6) == 256 * Pow256(5) == 0x1_0000_0000_0000;
    assert Pow256(7) == 256 * Pow256(6);
  }

  /** The octets of a long definite length (lines 103-112): 7 of them cannot overflow a size_t. */
  method ReadLength(data: seq<byte>, first: nat, total: nat) returns (len: nat)
    requires first + total <= |data| && total <= 7
    ensures len == BigEndian(data, first, total) && len < 0x1_0000_0000_0000_0000
  {
    var dp, n := first, total;
    len := 0;
    while n > 0
      invariant 0 <= n <= total && dp == first + (total - n)
      invariant len == BigEndian(data, first, total - n)
    {
      len := len * 256 + data[dp];
      dp := dp + 1;
      n := n - 1;
    }
    BigEndianBound(data, first, total);
    Pow256Mono(total, 7);
    Pow256Of7();
  }

  lemma SliceOfTake(data: seq<byte>, m: nat, i: nat, j: nat)
    requires i <= j <= m <= |data|
    ensures data[i..j] == data[..m][i..j]
  {}

  /** From the tag to the end of the length octets (lines 80-112). */
  method ReadHeader(data: seq<byte>, datalen: nat, start: nat) returns (r: Result<Header>)
    requires start + 2 <= datalen <= |data|
    ensures r == ParseHeader(data[..datalen], start)
  {
    ghost var d := data[..datalen];
    var tag := data[start];
    var dp := start + 1;
    if tag % 32 == 31 {
      var more := true;
      while more
        invariant start < dp <= datalen
        invariant if more then LongTag(d, start + 1) == LongTag(d, dp) else LongTag(d, start + 1) == Ok(dp)
        decreases datalen - dp, more
      {
        if datalen - dp < 2 {
          return Fail(DataOverrun);
        }
        var tmp := data[dp];
        dp := dp + 1;
        more := tmp >= 128;
      }
    }
    var len: nat := data[dp];
    dp := dp + 1;
    if len < 128 {
      return Ok(Header(dp, false, len));
    }
    if len == 128 {
      if !Constructed(tag) {
        return Fail(IndefinitePrimitive);
      }
      return Ok(Header(dp, true, 0));
    }
    var n := len - 128;
    if n > 7 {
      return Fail(LengthTooLong);
    }
    if n > datalen - dp {
      return Fail(DataOverrun);
    }
    len := ReadLength(data, dp, n);
    SliceOfTake(data, datalen, dp, dp + n);
    BigEndianSame(data, dp, d, dp, n);
    r := Ok(Header(dp + n, false, len));
  }

  /** asn1_find_indefinite_length: on success the new cursor; the size it reports is the distance. */
  method FindIndefiniteLength(data: seq<byte>, datalen: nat, start: nat) returns (r: Result<nat>)
    requires start <= datalen <= |data|
    ensures r == Scan(data[..datalen], start, 1)
  {
    hide ParseHeader;
    ghost var d := data[..datalen];
    var dp := start;
    var level := 1;
    while true
      invariant start <= dp <= datalen && level >= 1
      invariant Scan(d, start, 1) == Scan(d, dp, level)
      decreases datalen - dp
    {
      if datalen - dp < 2 {
        return Fail(if datalen == dp then MissingEoc else DataOverrun);
      }
      if data[dp] == 0 {
        if data[dp + 1] != 0 {
          return Fail(InvalidEoc);
        }
        dp := dp + 2;
        level := level - 1;
        if level <= 0 {
          return Ok(dp);
        }
      } else {
        var h := ReadHeader(data, datalen, dp);
        if h.Fail? {
          return Fail(h.error);
        }
        dp := h.value.body;
        if h.value.indefinite {
          level := level + 1;
        } else {
          if h.value.len > datalen - dp {
            return Fail(DataOverrun);
          }
          dp := dp + h.value.len;
        }
      }
    }
  }

  // ----- the grammar -----

  /** A data value: identifier octets, then a definite length and contents, or an indefinite length,
      nested data values and end-of-contents. */
  datatype Element =
    | Definite(id: seq<byte>, length: seq<byte>, contents: seq<byte>)
    | Indefinite(id: seq<byte>, inner: seq<Element>)

  /** X.690 section 8.1.2; the octet 00 is reserved for end-of-contents. The rule of section
      8.1.2.4.2 that the first subsequent octet is not 80 is not checked by the code. */
  predicate Identifier(id: seq<byte>) {
    && |id| >= 1 && id[0] != 0
    && if id[0] % 32 != 31 then |id| == 1
       else |id| >= 2 && id[|id| - 1] < 128 && forall i :: 1 <= i < |id| - 1 ==> id[i] >= 128
  }

  /** X.690 sections 8.1.3.4 and 8.1.3.5, for lengths written in at most 7 octets. */
  predicate LengthOctets(l: seq<byte>, n: nat) {
    && |l| >= 1
    && if l[0] < 128 then |l| == 1 && n == l[0]
       else 1 <= l[0] - 128 <= 7 && |l| == 1 + l[0] - 128 && n == BigEndian(l, 1, |l| - 1)
  }

  const EOC: seq<byte> := [0, 0]

  predicate ValidElement(e: Element)
    decreases e, 1
  {
    match e
    case Definite(id, length, contents) => Identifier(id) && LengthOctets(length, |contents|)
    case Indefinite(id, inner) => Identifier(id) && Constructed(id[0]) && ValidAll(inner)
  }

  predicate ValidAll(es: seq<Element>)
    decreases es, 0
  {
    es == [] || (ValidElement(es[0]) && ValidAll(es[1..]))
  }

  function Octets(e: Element): seq<byte>
    decreases e, 1
  {
    match e
    case Definite(id, length, contents) => id + length + contents
    case Indefinite(id, inner) => id + [128] + (OctetsAll(inner) + EOC)
  }

  function OctetsAll(es: seq<Element>): seq<byte>
    decreases es, 0
  {
    if es == [] then [] else Octets(es[0]) + OctetsAll(es[1..])
  }

  /** The octets `x` stand at position `p`. */
  predicate At(d: seq<byte>, p: nat, x: seq<byte>) {
    p + |x| <= |d| && d[p..p + |x|] == x
  }

  lemma AtSplit(d: seq<byte>, p: nat, x: seq<byte>, y: seq<byte>)
    ensures At(d, p, x + y) <==> At(d, p, x) && At(d, p + |x|, y)
  {
    if p + |x| + |y| <= |d| {
      var z := d[p..p + |x| + |y|];
      assert d[p..p + |x|] == z[..|x|];
      assert d[p + |x|..p + |x| + |y|] == z[|x|..];
      assert (x + y)[..|x|] == x && (x + y)[|x|..] == y;
      assert z == z[..|x|] + z[|x|..];
    }
  }

  // ----- headers -----

  lemma {:induction false} LongTagComplete(d: seq<byte>, p: nat, id: seq<byte>, i: nat)
    requires Identifier(id) && At(d, p, id) && p + |id| < |d| && 1 <= i < |id|
    ensures LongTag(d, p + i) == Ok(p + |id|)
    decreases |id| - i
  {
    assert d[p + i] == id[i];
    if i < |id| - 1 { LongTagComplete(d, p, id, i + 1); }
  }

  lemma {:induction false} LongTagSound(d: seq<byte>, p: nat, i: nat)
    requires p < i <= |d| && d[p] % 32 == 31 && LongTag(d, i).Ok?
    requires forall j :: p < j < i ==> d[j] >= 128
    ensures Identifier(d[p..LongTag(d, i).value])
    decreases |d| - i
  {
    if d[i] >= 128 { LongTagSound(d, p, i + 1); }
  }

  /** Valid identifier and length octets are read back. */
  lemma HeaderComplete(d: seq<byte>, p: nat, id: seq<byte>, l: seq<byte>, n: nat, indefinite: bool)
    requires Identifier(id) && At(d, p, id + l)
    requires if indefinite then Constructed(id[0]) && l == [128] && n == 0 else LengthOctets(l, n)
    ensures p + 2 <= |d| && d[p] != 0
    ensures ParseHeader(d, p) == Ok(Header(p + |id| + |l|, indefinite, n))
  {
    AtSplit(d, p, id, l);
    var t := p + |id|;
    assert At(d, p, id) && |l| >= 1 && t < |d|;
    assert d[p] == id[0] && d[t] == l[0];
    if |id| >= 2 { LongTagComplete(d, p, id, 1); }
    assert d[t + 1..t + |l|] == d[t..t + |l|][1..] == l[1..];
    if l[0] > 128 { BigEndianSame(d, t + 1, l, 1, |l| - 1); }
  }

  /** What is read as a header is valid identifier and length octets. */
  lemma HeaderSound(d: seq<byte>, p: nat) returns (t: nat)
    requires p + 2 <= |d| && d[p] != 0 && ParseHeader(d, p).Ok?
    ensures var h := ParseHeader(d, p).value;
            && p < t < h.body && Identifier(d[p..t])
            && (if h.indefinite then Constructed(d[p]) && d[t..h.body] == [128] && h.len == 0
                else LengthOctets(d[t..h.body], h.len))
  {
    hide LongTag, BigEndian;
    t := p + 1;
    if d[p] % 32 == 31 {
      LongTagSound(d, p, p + 1);
      t := LongTag(d, p + 1).value;
    }
    var h := ParseHeader(d, p).value;
    assert d[t + 1..h.body] == d[t..h.body][1..];
    if d[t] > 128 { BigEndianSame(d, t + 1, d[t..h.body], 1, h.body - t - 1); }
  }

  // ----- completeness -----

  lemma ScanDefinite(d: seq<byte>, p: nat, id: seq<byte>, l: seq<byte>, contents: seq<byte>, level: nat)
    requires Identifier(id) && LengthOctets(l, |contents|) && level >= 1 && At(d, p, id + l + contents)
    ensures Scan(d, p, level) == Scan(d, p + |id| + |l| + |contents|, level)
  {
    AtSplit(d, p, id + l, contents);
    HeaderComplete(d, p, id, l, |contents|, false);
  }

  lemma ScanIndefinite(d: seq<byte>, p: nat, id: seq<byte>, level: nat)
    requires Identifier(id) && Constructed(id[0]) && level >= 1 && At(d, p, id + [128])
    ensures Scan(d, p, level) == Scan(d, p + |id| + 1, level + 1)
  {
    HeaderComplete(d, p, id, [128], 0, true);
  }

  lemma {:induction false} ScanElement(d: seq<byte>, p: nat, e: Element, level: nat)
    requires ValidElement(e) && level >= 1 && At(d, p, Octets(e))
    ensures Scan(d, p, level) == Scan(d, p + |Octets(e)|, level)
    decreases e, 1
  {
    hide Round;
    match e
    case Definite(id, l, contents) => ScanDefinite(d, p, id, l, contents, level);
    case Indefinite(id, inner) =>
      AtSplit(d, p, id + [128], OctetsAll(inner) + EOC);
      var q := p + |id| + 1;
      AtSplit(d, q, OctetsAll(inner), EOC);
      ScanIndefinite(d, p, id, level);
      ScanAll(d, q, inner, level + 1);
      ScanEoc(d, q + |OctetsAll(inner)|, level + 1);
  }

  lemma ScanEoc(d: seq<byte>, p: nat, level: nat)
    requires level >= 1 && At(d, p, EOC)
    ensures Scan(d, p, level) == if level == 1 then Ok(p + 2) else Scan(d, p + 2, level - 1)
  {
    assert d[p] == EOC[0] && d[p + 1] == EOC[1];
  }

  lemma {:induction false} ScanAll(d: seq<byte>, p: nat, es: seq<Element>, level: nat)
    requires ValidAll(es) && level >= 1 && At(d, p, OctetsAll(es))
    ensures Scan(d, p, level) == Scan(d, p + |OctetsAll(es)|, level)
    decreases es, 0
  {
    hide Round;
    if es != [] {
      AtSplit(d, p, Octets(es[0]), OctetsAll(es[1..]));
      ScanElement(d, p, es[0], level);
      ScanAll(d, p + |Octets(es[0])|, es[1..], level);
    }
  }

  // ----- soundness -----

  /** One list of elements for each open level, each closed by end-of-contents. */
  function Closed(levels: seq<seq<Element>>): seq<byte> {
    if levels == [] then [] else OctetsAll(levels[0]) + EOC + Closed(levels[1..])
  }

  ghost predicate Explains(d: seq<byte>, p: nat, level: nat, q: nat, levels: seq<seq<Element>>) {
    && |levels| == level && (forall i :: 0 <= i < level ==> ValidAll(levels[i]))
    && At(d, p, Closed(levels)) && q == p + |Closed(levels)|
  }

  lemma ExplainEoc(d: seq<byte>, p: nat, level: nat, q: nat, more: seq<seq<Element>>)
    requires p + 2 <= |d| && d[p] == d[p + 1] == 0 && Explains(d, p + 2, level, q, more)
    ensures Explains(d, p, level + 1, q, [[]] + more)
  {
    var levels := [[]] + more;
    assert d[p..p + 2] == EOC;
    assert levels[1..] == more && Closed(levels) == EOC + Closed(more);
    AtSplit(d, p, EOC, Closed(more));
  }

  lemma ExplainOpen(d: seq<byte>, p: nat, level: nat, q: nat, more: seq<seq<Element>>, t: nat)
      returns (levels: seq<seq<Element>>)
    requires p < t < |d| && Identifier(d[p..t]) && Constructed(d[p]) && d[t] == 128 && level >= 1
    requires Explains(d, t + 1, level + 1, q, more)
    ensures Explains(d, p, level, q, levels)
  {
    hide Closed, ValidAll, Identifier;
    levels := NestFirst(d[p..t], more);
    assert d[p..t] + [128] == d[p..t + 1];
    AtSplit(d, p, d[p..t] + [128], Closed(more));
  }

  lemma ExplainSkip(d: seq<byte>, p: nat, level: nat, q: nat, more: seq<seq<Element>>, t: nat, body: nat, end: nat)
      returns (levels: seq<seq<Element>>)
    requires p < t < body <= end <= |d| && Identifier(d[p..t]) && LengthOctets(d[t..body], end - body) && level >= 1
    requires Explains(d, end, level, q, more)
    ensures Explains(d, p, level, q, levels)
  {
    hide Closed, ValidAll, Identifier, LengthOctets;
    var e := Definite(d[p..t], d[t..body], d[body..end]);
    levels := AddFirst(e, more);
    InThree(d, p, t, body, end);
    assert Octets(e) == d[p..end];
    AtSplit(d, p, Octets(e), Closed(more));
  }

  lemma InThree(d: seq<byte>, p: nat, t: nat, body: nat, end: nat)
    requires p <= t <= body <= end <= |d|
    ensures d[p..t] + d[t..body] + d[body..end] == d[p..end]
  {}

  /** One round that goes on, explained after the position it goes on from is. */
  lemma ExplainRound(d: seq<byte>, p: nat, level: nat, q: nat, more: seq<seq<Element>>)
      returns (levels: seq<seq<Element>>)
    requires p <= |d| && level >= 1 && Round(d, p, level).Go?
    requires Explains(d, Round(d, p, level).p, Round(d, p, level).level, q, more)
    ensures Explains(d, p, level, q, levels)
  {
    hide ParseHeader, Explains, Identifier, LengthOctets;
    if d[p] == 0 {
      ExplainEoc(d, p, level - 1, q, more);
      levels := [[]] + more;
    } else {
      var h := ParseHeader(d, p).value;
      var t := HeaderSound(d, p);
      if h.indefinite {
        assert d[t..h.body][0] == d[t];
        levels := ExplainOpen(d, p, level, q, more, t);
      } else {
        levels := ExplainSkip(d, p, level, q, more, t, h.body, h.body + h.len);
      }
    }
  }

  lemma ExplainStop(d: seq<byte>, p: nat)
    requires p <= |d| && Round(d, p, 1).Stop? && Round(d, p, 1).r.Ok?
    ensures Explains(d, p, 1, Round(d, p, 1).r.value, [[]])
  {
    var none: seq<seq<Element>> := [];
    assert At(d, p + 2, []) && Explains(d, p + 2, 0, p + 2, none);
    ExplainEoc(d, p, 0, p + 2, none);
    assert [[]] + none == [[]];
  }

  lemma {:induction false} ScanSound(d: seq<byte>, p: nat, level: nat) returns (levels: seq<seq<Element>>)
    requires p <= |d| && level >= 1 && Scan(d, p, level).Ok?
    ensures Explains(d, p, level, Scan(d, p, level).value, levels)
    decreases |d| - p
  {
    hide Explains;
    match Round(d, p, level)
    case Stop(_) =>
      StopsOutermost(d, p, level);
      ExplainStop(d, p);
      levels := [[]];
    case Go(p', level') =>
      var more := ScanSound(d, p', level');
      levels := ExplainRound(d, p, level, Scan(d, p, level).value, more);
  }

  lemma StopsOutermost(d: seq<byte>, p: nat, level: nat)
    requires p <= |d| && level >= 1 && Round(d, p, level).Stop? && Round(d, p, level).r.Ok?
    ensures level == 1
  {}

  /** One more element in front of the innermost level. */
  lemma AddFirst(e: Element, levels: seq<seq<Element>>) returns (r: seq<seq<Element>>)
    requires |levels| >= 1 && ValidElement(e) && forall i :: 0 <= i < |levels| ==> ValidAll(levels[i])
    ensures |r| == |levels| && forall i :: 0 <= i < |r| ==> ValidAll(r[i])
    ensures Closed(r) == Octets(e) + Closed(levels)
  {
    r := levels[0 := [e] + levels[0]];
    assert r[0][1..] == levels[0] && r[1..] == levels[1..];
  }

  /** The innermost level becomes one element of the next. */
  lemma NestFirst(id: seq<byte>, levels: seq<seq<Element>>) returns (r: seq<seq<Element>>)
    requires |levels| >= 2 && forall i :: 0 <= i < |levels| ==> ValidAll(levels[i])
    requires Identifier(id) && Constructed(id[0])
    ensures |r| == |levels| - 1 && forall i :: 0 <= i < |r| ==> ValidAll(r[i])
    ensures Closed(r) == (id + [128]) + Closed(levels)
  {
    var e := Indefinite(id, levels[0]);
    r := AddFirst(e, levels[1..]);
    assert Octets(e) + Closed(levels[1..]) == (id + [128]) + (OctetsAll(levels[0]) + EOC + Closed(levels[1..]));
  }

  /** The scan succeeds with end position `q` exactly when the octets from `p` to `q` are a list of
      valid elements followed by end-of-contents. */
  lemma ScanExact(d: seq<byte>, p: nat, q: nat)
    requires p <= |d|
    ensures Scan(d, p, 1) == Ok(q) <==>
            p <= q <= |d| && exists es :: ValidAll(es) && d[p..q] == OctetsAll(es) + EOC
  {
    hide Round;
    if Scan(d, p, 1) == Ok(q) {
      var levels := ScanSound(d, p, 1);
      assert Closed(levels) == OctetsAll(levels[0]) + EOC + Closed(levels[1..]);
      assert d[p..q] == OctetsAll(levels[0]) + EOC;
    }
    if p <= q <= |d| && exists es :: ValidAll(es) && d[p..q] == OctetsAll(es) + EOC {
      var es :| ValidAll(es) && d[p..q] == OctetsAll(es) + EOC;
      AtSplit(d, p, OctetsAll(es), EOC);
      ScanAll(d, p, es, 1);
      ScanEoc(d, p + |OctetsAll(es)|, 1);
    }
  }
}
