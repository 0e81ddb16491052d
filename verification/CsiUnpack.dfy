/** The unpackers of the bit-packed channel state: the word-shifting loops of csi/incsi/cpp/bf_to_eff.c and the
    byte-shifting loop of csi/incsi/matlab/i53-csi-libs/read_bfee.c.

    Octets and machine words are sequences of bits, lowest bit first, and shifts and `or` are defined on them
    bit by bit. The machine is little-endian and its char is signed.
 */
module CsiUnpack {

  type word = seq<bool>

  type byte = b: word | |b| == 8 witness [false, false, false, false, false, false, false, false]

  // ----- machine operations -----

  function Shr(w: word, r: nat): (v: word)
    ensures |v| == |w|
  {
    seq(|w|, i requires 0 <= i < |w| => i + r < |w| && w[i + r])
  }

  function Shl(w: word, r: nat): (v: word)
    ensures |v| == |w|
  {
    seq(|w|, i requires 0 <= i < |w| => i >= r && w[i - r])
  }

  function Or(a: word, b: word): (v: word)
    requires |a| == |b|
    ensures |v| == |a|
  {
    seq(|a|, i requires 0 <= i < |a| => a[i] || b[i])
  }

  /** An octet promoted to int. */
  function Promote(b: byte): (v: word)
    ensures |v| == 32
  {
    seq(32, i requires 0 <= i < 32 => i < 8 && b[i])
  }

  function Truncate(w: word): byte
    requires |w| >= 8
  {
    w[..8]
  }

  function Unsigned(b: byte): (v: int)
    ensures 0 <= v < 256
  {
    (if b[0] then 1 else 0) + (if b[1] then 2 else 0) + (if b[2] then 4 else 0) + (if b[3] then 8 else 0)
    + (if b[4] then 16 else 0) + (if b[5] then 32 else 0) + (if b[6] then 64 else 0) + (if b[7] then 128 else 0)
  }

  function Signed(b: byte): (v: int)
    ensures -128 <= v < 128
  {
    if b[7] then Unsigned(b) - 256 else Unsigned(b)
  }

  // ----- what is packed -----

  /** Bit n of a buffer. */
  predicate Bit(m: seq<byte>, n: nat)
    requires n / 8 < |m|
  {
    m[n / 8][n % 8]
  }

  /** n bits from bit p on. */
  function Window(m: seq<byte>, p: nat, n: nat): (w: word)
    requires p + n <= 8 * |m|
    ensures |w| == n
  {
    seq(n, i requires 0 <= i < n => Bit(m, p + i))
  }

  /** Component j (even: real, odd: imaginary) of subcarrier i, of n antenna pairs: 3 bits of gap and 16n
      bits of data a subcarrier.
   */
  function Position(n: nat, i: nat, j: nat): nat { 3 + i * (16 * n + 3) + 8 * j }

  function CalcLen(n: nat): nat { (30 * (n * 8 * 2 + 3) + 7) / 8 }

  lemma RowsMono(i: nat, k: nat)
    requires i <= 29
    ensures i * k <= 29 * k
  {}

  lemma PositionFits(n: nat, i: nat, j: nat)
    requires i < 30 && j < 2 * n
    ensures Position(n, i, j) + 8 <= 8 * CalcLen(n)
  {
    RowsMono(i, 16 * n + 3);
  }

  /** The signed octet of that component. */
  function Sample(m: seq<byte>, n: nat, i: nat, j: nat): int
    requires i < 30 && j < 2 * n && |m| >= CalcLen(n)
  {
    PositionFits(n, i, j);
    Signed(Window(m, Position(n, i, j), 8))
  }

  lemma WindowBefore(m: seq<byte>, beyond: seq<byte>, p: nat, n: nat)
    requires p + n <= 8 * |m|
    ensures Window(m + beyond, p, n) == Window(m, p, n)
  {
    forall k | 0 <= k < n ensures Window(m + beyond, p, n)[k] == Window(m, p, n)[k] {
      assert Bit(m + beyond, p + k) == Bit(m, p + k) by {
        assert (m + beyond)[(p + k) / 8] == m[(p + k) / 8];
      }
    }
  }

  /** Nothing behind the calculated length matters. */
  lemma BeyondIgnored(m: seq<byte>, beyond: seq<byte>, n: nat, i: nat, j: nat)
    requires i < 30 && j < 2 * n && |m| >= CalcLen(n)
    ensures Sample(m + beyond, n, i, j) == Sample(m, n, i, j)
  {
    PositionFits(n, i, j);
    hide Position, Window, Signed;
    WindowBefore(m, beyond, Position(n, i, j), 8);
  }

  // ----- the word-shifting unpackers -----

  /** A little-endian load of k octets. */
  function Load(m: seq<byte>, at: nat, k: nat): (w: word)
    requires at + k <= |m|
    ensures |w| == 8 * k
  {
    Window(m, 8 * at, 8 * k)
  }

  function Octet(w: word, j: nat): byte
    requires 8 * j + 8 <= |w|
  {
    w[8 * j..8 * j + 8]
  }

  /** The low n bits of a word are those of the buffer from bit p on. */
  predicate Holds(w: word, m: seq<byte>, p: nat, n: nat) {
    n <= |w| && p + n <= 8 * |m| && w[..n] == Window(m, p, n)
  }

  lemma HeldOctet(w: word, m: seq<byte>, p: nat, n: nat, j: nat)
    requires Holds(w, m, p, n) && 8 * j + 8 <= n
    ensures Octet(w, j) == Window(m, p + 8 * j, 8)
  {
    assert Octet(w, j) == w[..n][8 * j..8 * j + 8];
  }

  /** Shifting the low bits out of a word and the next word's low bits in moves the window up. */
  lemma ShiftInHolds(m: seq<byte>, p: nat, r: nat)
    requires p + 128 <= 8 * |m| && 0 < r < 8
    ensures Or(Shr(Window(m, p, 64), r), Shl(Window(m, p + 64, 64), 64 - r)) == Window(m, p + r, 64)
  {}

  lemma ShrHolds(m: seq<byte>, p: nat, n: nat, r: nat)
    requires p + n <= 8 * |m| && r <= n
    ensures Holds(Shr(Window(m, p, n), r), m, p + r, n - r)
  {}

  lemma HoldsBoth(v: word, w: word, m: seq<byte>, p: nat, n: nat)
    requires Holds(v, m, p, |v|) && Holds(w, m, p + |v|, n)
    ensures Holds(v + w, m, p, |v| + n)
  {}

  lemma HoldsLess(w: word, m: seq<byte>, p: nat, n: nat, k: nat)
    requires Holds(w, m, p, n) && k <= n
    ensures Holds(w, m, p, k)
  {
    assert w[..k] == w[..n][..k];
  }

  /** A word with its low r bits out and the next word's in at the top, and the last word with its low bits
      out, as the code has them after its `if (index_rem != 0)`.
   */
  function ShiftedIn(w: word, next: word, r: nat): (v: word)
    requires |w| == |next| == 64 && r < 8
    ensures |v| == 64
  {
    if r == 0 then w else Or(Shr(w, r), Shl(next, 64 - r))
  }

  function ShiftedOut(w: word, r: nat): (v: word)
    ensures |v| == |w|
  {
    if r == 0 then w else Shr(w, r)
  }

  /** One, two and three loaded words, shifted, hold the buffer from bit r on. */
  lemma OneWord(m: seq<byte>, at: nat, octets: nat, r: nat, n: nat)
    requires at + octets <= |m| && r < 8 && r + n <= 8 * octets
    ensures Holds(ShiftedOut(Load(m, at, octets), r), m, 8 * at + r, n)
  {
    ShrHolds(m, 8 * at, 8 * octets, r);
    HoldsLess(ShiftedOut(Load(m, at, octets), r), m, 8 * at + r, 8 * octets - r, n);
  }

  lemma FullWord(m: seq<byte>, at: nat, r: nat)
    requires at + 16 <= |m| && r < 8
    ensures Holds(ShiftedIn(Load(m, at, 8), Load(m, at + 8, 8), r), m, 8 * at + r, 64)
  {
    if r != 0 { ShiftInHolds(m, 8 * at, r); }
  }

  lemma TwoWords(m: seq<byte>, at: nat, r: nat, n: nat)
    requires at + 16 <= |m| && r < 8 && 64 <= n && r + n <= 128
    ensures Holds(ShiftedIn(Load(m, at, 8), Load(m, at + 8, 8), r) + ShiftedOut(Load(m, at + 8, 8), r),
                  m, 8 * at + r, n)
  {
    FullWord(m, at, r);
    OneWord(m, at + 8, 8, r, n - 64);
    hide Window, Load, ShiftedIn, ShiftedOut;
    HoldsBoth(ShiftedIn(Load(m, at, 8), Load(m, at + 8, 8), r), ShiftedOut(Load(m, at + 8, 8), r),
              m, 8 * at + r, n - 64);
  }

  lemma ThreeWords(m: seq<byte>, at: nat, r: nat, n: nat)
    requires at + 24 <= |m| && r < 8 && 128 <= n && r + n <= 192
    ensures Holds(ShiftedIn(Load(m, at, 8), Load(m, at + 8, 8), r)
                  + (ShiftedIn(Load(m, at + 8, 8), Load(m, at + 16, 8), r) + ShiftedOut(Load(m, at + 16, 8), r)),
                  m, 8 * at + r, n)
  {
    FullWord(m, at, r);
    TwoWords(m, at + 8, r, n - 64);
    hide Window, Load, ShiftedIn, ShiftedOut;
    HoldsBoth(ShiftedIn(Load(m, at, 8), Load(m, at + 8, 8), r),
              ShiftedIn(Load(m, at + 8, 8), Load(m, at + 16, 8), r) + ShiftedOut(Load(m, at + 16, 8), r),
              m, 8 * at + r, n - 64);
  }

  /** The position reached by the byte and bit counters. */
  predicate At(n: nat, i: nat, indexByte: nat, indexRem: nat) {
    indexRem < 8 && 8 * indexByte + indexRem == Position(n, i, 0)
  }

  /** The step of the counters between subcarriers. */
  lemma NextAt(n: nat, i: nat, indexByte: nat, indexRem: nat)
    requires At(n, i, indexByte, indexRem)
    ensures At(n, i + 1, indexByte + 2 * n + (if indexRem + 3 > 7 then 1 else 0),
              if indexRem + 3 > 7 then indexRem + 3 - 8 else indexRem + 3)
  {
    assert (i + 1) * (16 * n + 3) == i * (16 * n + 3) + 16 * n + 3;
  }

  /** Where the counters stand, and how far they get. */
  lemma Reach(n: nat, i: nat, indexByte: nat, indexRem: nat)
    requires At(n, i, indexByte, indexRem) && i < 30
    ensures Position(n, i, 0) == 8 * indexByte + indexRem && indexRem < 8
    ensures 8 * indexByte <= 3 + 29 * (16 * n + 3)
  {
    RowsMono(i, 16 * n + 3);
  }

  lemma StartAt(n: nat)
    ensures At(n, 0, 0, 3)
  {}

  /** The first `rows` rows of the result are done, and row `rows` up to column `columns`. */
  ghost predicate Filled(csi: array2<int>, m: seq<byte>, n: nat, rows: nat, columns: nat)
    requires csi.Length0 == 30 && csi.Length1 == 2 * n && |m| >= CalcLen(n)
    reads csi
  {
    forall i, j :: 0 <= i < 30 && 0 <= j < 2 * n && (i < rows || (i == rows && j < columns)) ==>
      csi[i, j] == Sample(m, n, i, j)
  }

  /** The inner loop, the same in all four: the octets of the shifted words, widened. */
  method StoreRow(cur: word, csi: array2<int>, i: nat, n: nat, ghost m: seq<byte>)
    requires csi.Length0 == 30 && csi.Length1 == 2 * n && |m| >= CalcLen(n) && i < 30
    requires Holds(cur, m, Position(n, i, 0), 16 * n)
    requires Filled(csi, m, n, i, 0)
    modifies csi
    ensures Filled(csi, m, n, i + 1, 0)
  {
    hide Signed, Octet, Window;
    for j := 0 to n * 2
      invariant Filled(csi, m, n, i, j)
    {
      HeldOctet(cur, m, Position(n, i, 0), 16 * n, j);
      csi[i, j] := Signed(Octet(cur, j));
    }
  }

  lemma NothingFilled(csi: array2<int>, m: seq<byte>, n: nat)
    requires csi.Length0 == 30 && csi.Length1 == 2 * n && |m| >= CalcLen(n)
    ensures Filled(csi, m, n, 0, 0)
  {}

  /** compute_11: one 32-bit word a subcarrier, one antenna pair. */
  method Unpack11(m: seq<byte>, csi: array2<int>)
    requires csi.Length0 == 30 && csi.Length1 == 2 && |m| >= 73
    modifies csi
    ensures Filled(csi, m, 1, 30, 0)
  {
    hide Filled, Load, Shr, Shl, Or, Holds, Window, Sample, At, Position;
    var size := 1 * 1 * 2 * 8 + 3;
    var sizeByte, sizeRem := size / 8, size % 8;
    var indexByte: nat, indexRem: nat := 0, 3;
    NothingFilled(csi, m, 1);
    StartAt(1);
    for i := 0 to 30
      invariant At(1, i, indexByte, indexRem)
      invariant Filled(csi, m, 1, i, 0)
    {
      Reach(1, i, indexByte, indexRem);
      var cur := Load(m, indexByte, 4);
      if indexRem != 0 {
        cur := Shr(cur, indexRem);
      }
      OneWord(m, indexByte, 4, indexRem, 16);
      StoreRow(cur, csi, i, 1, m);
      NextAt(1, i, indexByte, indexRem);
      indexByte := indexByte + sizeByte;
      indexRem := indexRem + sizeRem;
      if indexRem > 7 {
        indexByte := indexByte + 1;
        indexRem := indexRem - 8;
      }
    }
  }

  /** compute_31: one 64-bit word a subcarrier, three antenna pairs. */
  method Unpack31(m: seq<byte>, csi: array2<int>)
    requires csi.Length0 == 30 && csi.Length1 == 6 && |m| >= 193
    modifies csi
    ensures Filled(csi, m, 3, 30, 0)
  {
    hide Filled, Load, Shr, Shl, Or, Holds, Window, Sample, At, Position;
    var size := 3 * 1 * 2 * 8 + 3;
    var sizeByte, sizeRem := size / 8, size % 8;
    var indexByte: nat, indexRem: nat := 0, 3;
    NothingFilled(csi, m, 3);
    StartAt(3);
    for i := 0 to 30
      invariant At(3, i, indexByte, indexRem)
      invariant Filled(csi, m, 3, i, 0)
    {
      Reach(3, i, indexByte, indexRem);
      var cur := Load(m, indexByte, 8);
      if indexRem != 0 {
        cur := Shr(cur, indexRem);
      }
      OneWord(m, indexByte, 8, indexRem, 48);
      StoreRow(cur, csi, i, 3, m);
      NextAt(3, i, indexByte, indexRem);
      indexByte := indexByte + sizeByte;
      indexRem := indexRem + sizeRem;
      if indexRem > 7 {
        indexByte := indexByte + 1;
        indexRem := indexRem - 8;
      }
    }
  }

  /** compute_32: two 64-bit words a subcarrier, six antenna pairs. */
  method Unpack32(m: seq<byte>, csi: array2<int>)
    requires csi.Length0 == 30 && csi.Length1 == 12 && |m| >= 375
    modifies csi
    ensures Filled(csi, m, 6, 30, 0)
  {
    hide Filled, Load, Shr, Shl, Or, Holds, Window, Sample, At, Position;
    var size := 3 * 2 * 2 * 8 + 3;
    var sizeByte, sizeRem := size / 8, size % 8;
    var indexByte: nat, indexRem: nat := 0, 3;
    NothingFilled(csi, m, 6);
    StartAt(6);
    for i := 0 to 30
      invariant At(6, i, indexByte, indexRem)
      invariant Filled(csi, m, 6, i, 0)
    {
      Reach(6, i, indexByte, indexRem);
      var cur0 := Load(m, indexByte, 8);
      var cur1 := Load(m, indexByte + 8, 8);
      if indexRem != 0 {
        cur0 := Shr(cur0, indexRem);
        cur0 := Or(cur0, Shl(cur1, 64 - indexRem));
        cur1 := Shr(cur1, indexRem);
      }
      TwoWords(m, indexByte, indexRem, 96);
      StoreRow(cur0 + cur1, csi, i, 6, m);
      NextAt(6, i, indexByte, indexRem);
      indexByte := indexByte + sizeByte;
      indexRem := indexRem + sizeRem;
      if indexRem > 7 {
        indexByte := indexByte + 1;
        indexRem := indexRem - 8;
      }
    }
  }

  /** compute_33: three 64-bit words a subcarrier, nine antenna pairs. */
  method Unpack33(m: seq<byte>, csi: array2<int>)
    requires csi.Length0 == 30 && csi.Length1 == 18 && |m| >= 557
    modifies csi
    ensures Filled(csi, m, 9, 30, 0)
  {
    hide Filled, Load, Shr, Shl, Or, Holds, Window, Sample, At, Position;
    var size := 3 * 3 * 2 * 8 + 3;
    var sizeByte, sizeRem := size / 8, size % 8;
    var indexByte: nat, indexRem: nat := 0, 3;
    NothingFilled(csi, m, 9);
    StartAt(9);
    for i := 0 to 30
      invariant At(9, i, indexByte, indexRem)
      invariant Filled(csi, m, 9, i, 0)
    {
      Reach(9, i, indexByte, indexRem);
      var cur0 := Load(m, indexByte, 8);
      var cur1 := Load(m, indexByte + 8, 8);
      var cur2 := Load(m, indexByte + 16, 8);
      if indexRem != 0 {
        cur0 := Shr(cur0, indexRem);
        cur0 := Or(cur0, Shl(cur1, 64 - indexRem));
        cur1 := Shr(cur1, indexRem);
        cur1 := Or(cur1, Shl(cur2, 64 - indexRem));
        cur2 := Shr(cur2, indexRem);
      }
      ThreeWords(m, indexByte, indexRem, 144);
      StoreRow(cur0 + (cur1 + cur2), csi, i, 9, m);
      NextAt(9, i, indexByte, indexRem);
      indexByte := indexByte + sizeByte;
      indexRem := indexRem + sizeRem;
      if indexRem > 7 {
        indexByte := indexByte + 1;
        indexRem := indexRem - 8;
      }
    }
  }

  // ----- the byte-shifting unpacker -----

  datatype Result = Ok(re: seq<int>, im: seq<int>) | WrongSize

  function Promoted(a: byte, b: byte, r: nat): (w: word)
    requires r < 8
    ensures |w| == 32
  {
    Or(Shr(Promote(a), r), Shl(Promote(b), 8 - r))
  }

  lemma SplicedOctet(m: seq<byte>, p: nat)
    requires p + 8 < 8 * |m|
    ensures Truncate(Promoted(m[p / 8], m[p / 8 + 1], p % 8)) == Window(m, p, 8)
  {
    var t, r := Truncate(Promoted(m[p / 8], m[p / 8 + 1], p % 8)), p % 8;
    forall k | 0 <= k < 8 ensures t[k] == Window(m, p, 8)[k] {
      assert Window(m, p, 8)[k] == Bit(m, p + k);
      if r + k < 8 {
        assert (p + k) / 8 == p / 8 && (p + k) % 8 == r + k;
      } else {
        assert (p + k) / 8 == p / 8 + 1 && (p + k) % 8 == r + k - 8;
      }
    }
    assert t == Window(m, p, 8);
  }

  /** Where the real parts of pair j of subcarrier i stand in the output. */
  function Place(n: nat, i: nat, j: nat): nat { i * n + j }

  lemma PlacePosition(n: nat, i: nat, j: nat)
    requires i < 30 && j < n
    ensures Place(n, i, j) < 30 * n
    ensures Position(n, i, 2 * j) == 3 * (i + 1) + 16 * Place(n, i, j)
    ensures Position(n, i, 2 * j + 1) == 3 * (i + 1) + 16 * Place(n, i, j) + 8
  {
    var k := i * n;
    assert k <= 29 * n;
    assert i * (16 * n + 3) == 16 * k + 3 * i by {
      assert i * (16 * n) == 16 * k;
    }
  }

  /** Nrx * Ntx and len, from the header. */
  function Pairs(inBytes: seq<byte>): nat
    requires |inBytes| >= 20
  {
    Unsigned(inBytes[8]) * Unsigned(inBytes[9])
  }

  function Declared(inBytes: seq<byte>): nat
    requires |inBytes| >= 20
  {
    Unsigned(inBytes[16]) + 256 * Unsigned(inBytes[17])
  }

  /** The pairs before pair j of subcarrier i are read. */
  predicate Read(re: seq<int>, im: seq<int>, m: seq<byte>, n: nat, i: nat, j: nat)
    requires |m| >= CalcLen(n)
  {
    && |re| == |im| == Place(n, i, j)
    && forall i', j' {:trigger Place(n, i', j')} ::
      0 <= i' < 30 && 0 <= j' < n && (i' < i || (i' == i && j' < j)) ==>
        Place(n, i', j') < |re|
        && re[Place(n, i', j')] == Sample(m, n, i', 2 * j')
        && im[Place(n, i', j')] == Sample(m, n, i', 2 * j' + 1)
  }

  lemma ReadOne(re: seq<int>, im: seq<int>, m: seq<byte>, n: nat, i: nat, j: nat)
    requires |m| >= CalcLen(n) && i < 30 && j < n && Read(re, im, m, n, i, j)
    ensures Read(re + [Sample(m, n, i, 2 * j)], im + [Sample(m, n, i, 2 * j + 1)], m, n, i, j + 1)
  {
    hide Sample;
  }

  lemma ReadRow(re: seq<int>, im: seq<int>, m: seq<byte>, n: nat, i: nat)
    requires |m| >= CalcLen(n) && Read(re, im, m, n, i, n)
    ensures Read(re, im, m, n, i + 1, 0)
  {
    hide Sample;
    assert Place(n, i, n) == Place(n, i + 1, 0);
  }

  /** read_bfee: the length check, then two octets for each pair of each subcarrier. No octet behind the
      calculated length is read.
   */
  method ReadBfee(inBytes: seq<byte>) returns (r: Result)
    requires |inBytes| >= 20 && |inBytes| >= 20 + Declared(inBytes)
    ensures r.WrongSize? <==> Declared(inBytes) != CalcLen(Pairs(inBytes))
    ensures r.Ok? ==> Read(r.re, r.im, inBytes[20..20 + Declared(inBytes)], Pairs(inBytes), 30, 0)
  {
    hide Unsigned, Read;
    var n := Pairs(inBytes);
    var len := Declared(inBytes);
    if len != CalcLen(n) {
      return WrongSize;
    }
    hide Pairs, Declared, CalcLen;
    var re, im := ReadPairs(inBytes[20..20 + len], n);
    r := Ok(re, im);
  }

  method ReadPairs(payload: seq<byte>, n: nat) returns (re: seq<int>, im: seq<int>)
    requires |payload| == CalcLen(n)
    ensures Read(re, im, payload, n, 30, 0)
  {
    hide Window, Signed, Truncate, Promoted, Read, Position, Place;
    re, im := [], [];
    NothingRead(payload, n);
    var index := 0;
    for i := 0 to 30
      invariant Read(re, im, payload, n, i, 0) && index == 3 * i + 16 * Place(n, i, 0)
    {
      PlaceNext(n, i, 0);
      index := index + 3;
      var remainder := index % 8;
      for j := 0 to n
        invariant index == 3 * (i + 1) + 16 * Place(n, i, j) && index % 8 == remainder
        invariant Read(re, im, payload, n, i, j)
      {
        PlacePosition(n, i, j);
        PlaceNext(n, i, j);
        ReadOne(re, im, payload, n, i, j);
        SameRemainder(index);
        SplicedOctet(payload, index);
        SplicedOctet(payload, index + 8);
        var tmp := Truncate(Promoted(payload[index / 8], payload[index / 8 + 1], remainder));
        re := re + [Signed(tmp)];
        tmp := Truncate(Promoted(payload[index / 8 + 1], payload[index / 8 + 2], remainder));
        im := im + [Signed(tmp)];
        index := index + 16;
      }
      ReadRow(re, im, payload, n, i);
    }
  }

  lemma SameRemainder(index: nat)
    ensures (index + 16) % 8 == index % 8 && (index + 8) / 8 == index / 8 + 1
    ensures (index + 8) % 8 == index % 8 && (index + 16) / 8 == index / 8 + 2
  {}

  lemma NothingRead(m: seq<byte>, n: nat)
    requires |m| >= CalcLen(n)
    ensures Read([], [], m, n, 0, 0) && Place(n, 0, 0) == 0
  {}

  lemma PlaceNext(n: nat, i: nat, j: nat)
    ensures Place(n, i, j + 1) == Place(n, i, j) + 1
    ensures Place(n, i, n) == Place(n, i + 1, 0)
  {}

  // ----- both ways -----

  /** On the same payload, whatever memory lies behind it, the word-shifting unpackers leave in row i what
      read_bfee puts out for subcarrier i.
   */
  lemma UnpackersAgree(payload: seq<byte>, beyond: seq<byte>, n: nat, csi: array2<int>, re: seq<int>, im: seq<int>,
                       i: nat, j: nat)
    requires csi.Length0 == 30 && csi.Length1 == 2 * n && |payload| == CalcLen(n)
    requires Filled(csi, payload + beyond, n, 30, 0) && Read(re, im, payload, n, 30, 0)
    requires i < 30 && j < n
    ensures Place(n, i, j) < |re| == |im| == 30 * n
    ensures csi[i, 2 * j] == re[Place(n, i, j)] && csi[i, 2 * j + 1] == im[Place(n, i, j)]
  {
    hide Sample;
    PlacePosition(n, i, j);
    BeyondIgnored(payload, beyond, n, i, 2 * j);
    BeyondIgnored(payload, beyond, n, i, 2 * j + 1);
  }
}
