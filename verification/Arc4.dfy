/** The ARC4 stream cipher (compat/lib-crypto-arc4.c): the key schedule, and the software-pipelined
    encryption loop, proved to be the textbook generator.
 */
module Arc4 {

  type byte = x: int | 0 <= x < 256

  function Add(a: int, b: int): byte { (a + b) % 256 }

  /** The textbook state: the table and the two counters i, j as they stand between two octets. */
  datatype Rc4 = Rc4(s: seq<byte>, i: byte, j: byte) {
    predicate Valid() { Permutation(s) }
  }

  /** All of 0..255, each once. */
  predicate Permutation(s: seq<byte>) {
    |s| == 256 && forall i, j :: 0 <= i < j < 256 ==> s[i] != s[j]
  }

  function Swap(s: seq<byte>, i: nat, j: nat): seq<byte>
    requires i < |s| && j < |s|
  {
    s[i := s[j]][j := s[i]]
  }

  lemma SwapPermutation(s: seq<byte>, i: nat, j: nat)
    requires Permutation(s) && i < 256 && j < 256
    ensures Permutation(Swap(s, i, j))
  {}

  // ----- the textbook key schedule -----

  function Identity(): (s: seq<byte>)
    ensures Permutation(s)
  {
    seq(256, i requires 0 <= i < 256 => i)
  }

  function KeyIndex(i: nat, m: nat): (k: nat)
    requires m > 0
    ensures k < m
  {
    i % m
  }

  /** The table and j after `n` rounds of the key schedule. */
  function Schedule(key: seq<byte>, n: nat): (r: (seq<byte>, byte))
    requires |key| >= 1 && n <= 256
    ensures Permutation(r.0)
  {
    if n == 0 then (Identity(), 0)
    else
      var (s, j) := Schedule(key, n - 1);
      var j' := Add(j + s[n - 1], key[KeyIndex(n - 1, |key|)]);
      SwapPermutation(s, n - 1, j');
      (Swap(s, n - 1, j'), j')
  }

  function Start(key: seq<byte>): Rc4
    requires |key| >= 1
  {
    Rc4(Schedule(key, 256).0, 0, 0)
  }

  // ----- the textbook generator -----

  function Next(r: Rc4): (r': Rc4)
    requires r.Valid()
    ensures r'.Valid()
  {
    var i := Add(r.i, 1);
    var j := Add(r.j, r.s[i]);
    SwapPermutation(r.s, i, j);
    Rc4(Swap(r.s, i, j), i, j)
  }

  /** The keystream octet that goes with the state just reached. */
  function Output(r: Rc4): byte
    requires r.Valid()
  {
    r.s[Add(r.s[r.i], r.s[r.j])]
  }

  function After(r: Rc4, n: nat): (r': Rc4)
    requires r.Valid()
    ensures r'.Valid()
  {
    if n == 0 then r else Next(After(r, n - 1))
  }

  function Keystream(r: Rc4, n: nat): byte
    requires r.Valid()
  {
    Output(After(r, n + 1))
  }

  /** Octets xor-ed as the code's u8 and u32 operands are. */
  function Mix(t: bv8, k: byte): bv8 { t ^ (k as bv8) }

  /** Encryption, which is also decryption. */
  function Cipher(r: Rc4, text: seq<bv8>): (out: seq<bv8>)
    requires r.Valid()
    ensures |out| == |text| && forall n :: 0 <= n < |text| ==> out[n] == Mix(text[n], Keystream(r, n))
  {
    seq(|text|, n requires 0 <= n < |text| => Mix(text[n], Keystream(r, n)))
  }

  lemma {:induction false} AfterAdds(r: Rc4, m: nat, n: nat)
    requires r.Valid()
    ensures After(r, m + n) == After(After(r, m), n)
  {
    hide Next;
    if n > 0 { AfterAdds(r, m, n - 1); }
  }

  lemma KeystreamAt(r: Rc4, n: nat)
    requires r.Valid()
    ensures After(r, n + 1) == Next(After(r, n))
    ensures Keystream(r, n) == Output(Next(After(r, n)))
  {}

  /** Encrypting in two calls gives the same octets and leaves the same state as in one. */
  lemma {:induction false} CipherChunks(r: Rc4, a: seq<bv8>, b: seq<bv8>)
    requires r.Valid()
    ensures Cipher(r, a + b) == Cipher(r, a) + Cipher(After(r, |a|), b)
    ensures After(r, |a + b|) == After(After(r, |a|), |b|)
  {
    hide Next, Output;
    var c := Cipher(r, a) + Cipher(After(r, |a|), b);
    forall n | 0 <= n < |a + b| ensures Cipher(r, a + b)[n] == c[n] {
      if n >= |a| {
        AfterAdds(r, |a|, n - |a| + 1);
        assert c[n] == Cipher(After(r, |a|), b)[n - |a|];
      }
    }
    AfterAdds(r, |a|, |b|);
  }

  lemma MixTwice(t: bv8, k: byte)
    ensures Mix(Mix(t, k), k) == t
  {}

  /** From the same state, applying the cipher twice gives the text back. */
  lemma CipherInvolution(r: Rc4, text: seq<bv8>)
    requires r.Valid()
    ensures Cipher(r, Cipher(r, text)) == text
  {
    forall n | 0 <= n < |text| ensures Cipher(r, Cipher(r, text))[n] == text[n] {
      MixTwice(text[n], Keystream(r, n));
    }
  }

  // ----- the code -----

  /** What the pipeline holds between two rounds, in front of the textbook's step from `r`: the
      counters one step ahead and the two table entries to swap already loaded.
   */
  predicate Loaded(r: Rc4, s: seq<byte>, x: byte, y: byte, a: byte, b: byte) {
    && |s| == 256 && s == r.s
    && x == Add(r.i, 1) && a == s[x]
    && y == Add(r.j, a) && b == s[y]
  }

  /** The two stores of one round, in the order the code makes them, are the textbook's swap; the
      entries loaded after them are those of the following step.
   */
  lemma RoundIsNext(r: Rc4, s: seq<byte>, x: byte, y: byte, a: byte, b: byte)
    requires r.Valid() && Loaded(r, s, x, y, a, b)
    ensures Next(r) == Rc4(s[y := a][x := b], x, y)
    ensures Output(Next(r)) == s[y := a][x := b][Add(a, b)]
  {
    assert Swap(r.s, x, y) == s[y := a][x := b];
    assert Next(r).s[x] == b && Next(r).s[y] == a;
  }

  lemma AddBack(i: byte)
    ensures Add(Add(i, 1), 255) == i
  {}

  lemma AddSwap(j: byte, k: byte, a: byte)
    ensures Add(j + k, a) == Add(j + a, k)
  {}

  lemma AddUp(x: byte)
    ensures Add(Add(x, 255), 1) == x
  {}

  lemma ScheduleStart(key: seq<byte>)
    requires |key| >= 1
    ensures Schedule(key, 0) == (Identity(), 0) && KeyIndex(0, |key|) == 0
    ensures Start(key) == Rc4(Schedule(key, 256).0, 0, 0)
  {}

  lemma ScheduleNext(key: seq<byte>, i: nat)
    requires |key| >= 1 && i < 256
    ensures var (s, j) := Schedule(key, i);
            var j' := Add(j + s[i], key[KeyIndex(i, |key|)]);
            Schedule(key, i + 1) == (Swap(s, i, j'), j')
  {
    hide Swap, Add, KeyIndex;
  }

  class Context {
    /** ctx->S, ctx->x, ctx->y; x is one ahead of the textbook's i. */
    const table: array<byte>
    var x: byte
    var y: byte

    ghost function Contents(): seq<byte>
      reads table
    {
      table[..]
    }

    ghost predicate Valid()
      reads table
    {
      table.Length == 256 && Permutation(Contents())
    }

    /** The textbook state this context stands for. */
    ghost function State(): (r: Rc4)
      requires Valid()
      reads this, table
      ensures r.Valid()
    {
      Rc4(Contents(), Add(x, 255), y)
    }

    constructor ()
      ensures table.Length == 256 && fresh(table)
    {
      table := new byte[256](_ => 0);
      x, y := 0, 0;
    }

    /** One round of the key schedule, with k the octet of the key that goes with it. */
    method ScheduleRound(i: byte, j0: byte, k: byte) returns (j: byte)
      requires table.Length == 256
      modifies table
      ensures j == Add(j0 + old(Contents())[i], k)
      ensures Contents() == Swap(old(Contents()), i, j)
    {
      var a := table[i];
      AddSwap(j0, k, a);
      j := Add(j0 + k, a);
      table[i] := table[j];
      table[j] := a;
    }

    /** The loop that numbers the entries. */
    method Fill()
      requires table.Length == 256
      modifies table
      ensures Contents() == Identity()
    {
      hide Permutation;
      for i := 0 to 256
        invariant forall m :: 0 <= m < i ==> table[m] == m
      {
        table[i] := i;
      }
    }

    /** arc4_setkey, for any key of at least one octet. */
    method SetKey(key: seq<byte>)
      requires table.Length == 256 && |key| >= 1
      modifies this, table
      ensures Valid() && State() == Start(key)
    {
      assert Add(1, 255) == 0;
      ScheduleStart(key);
      hide Permutation, Add, Swap, Contents, Start, Schedule, KeyIndex, Identity;
      x, y := 1, 0;
      Fill();
      var j: byte, k: nat := 0, 0;
      for i := 0 to 256
        invariant x == 1 && y == 0
        invariant k == KeyIndex(i, |key|)
        invariant (Contents(), j) == Schedule(key, i)
      {
        ScheduleNext(key, i);
        j := ScheduleRound(i, j, key[k]);
        WrapNext(i, |key|);
        k := k + 1;
        if k >= |key| {
          k := 0;
        }
      }
    }

    /** The first n of len octets are encrypted, and the rest of the text and of the output is as it was. */
    static ghost predicate Encrypted(text: array<bv8>, out: array<bv8>, r: Rc4, input: seq<bv8>, before: seq<bv8>,
                                     n: nat, len: nat)
      requires r.Valid() && n <= len
      reads text, out
    {
      && len <= |input| == text.Length && len <= |before| == out.Length
      && (forall m :: 0 <= m < n ==> out[m] == Mix(input[m], Keystream(r, m)))
      && (forall m :: n <= m < len ==> text[m] == input[m])
      && (forall m :: len <= m < out.Length ==> out[m] == before[m])
    }

    static lemma EncryptedAll(text: array<bv8>, out: array<bv8>, r: Rc4, input: seq<bv8>, before: seq<bv8>, len: nat)
      requires r.Valid() && Encrypted(text, out, r, input, before, len, len)
      ensures out[..len] == Cipher(r, input[..len])
      ensures out[len..] == before[len..]
    {
      hide Mix, Keystream;
    }

    /** `*out++ = *in++ ^ k`, which may be in place. */
    static method StoreOctet(text: array<bv8>, out: array<bv8>, n: nat, k: byte,
                             ghost r: Rc4, ghost input: seq<bv8>, ghost before: seq<bv8>, ghost len: nat)
      requires r.Valid() && k == Keystream(r, n)
      requires n < len && Encrypted(text, out, r, input, before, n, len)
      modifies out
      ensures Encrypted(text, out, r, input, before, n + 1, len)
    {
      hide Mix, Keystream;
      out[n] := Mix(text[n], k);
    }

    /** One round of arc4_crypt's loop: it stores the pair held in a and b, loads the pair of the
        following round, and finishes octet n.
     */
    method Round(text: array<bv8>, out: array<bv8>, n: nat, x: byte, y: byte, a: byte, b: byte,
                 ghost r: Rc4, ghost input: seq<bv8>, ghost before: seq<bv8>, ghost len: nat)
      returns (nx: byte, ty: byte, ta: byte, tb: byte)
      requires text as object != table && out as object != table
      requires r.Valid() && Loaded(After(r, n), Contents(), x, y, a, b)
      requires n < len && Encrypted(text, out, r, input, before, n, len)
      modifies table, out
      ensures After(r, n + 1) == Rc4(Contents(), Add(nx, 255), y)
      ensures Loaded(After(r, n + 1), Contents(), nx, ty, ta, tb)
      ensures Encrypted(text, out, r, input, before, n + 1, len)
    {
      RoundIsNext(After(r, n), table[..], x, y, a, b);
      KeystreamAt(r, n);
      AddBack(x);
      hide Permutation, Add, Next, Output, Swap, Mix, After, Keystream;
      ghost var swapped := table[..][y := a][x := b];
      table[y] := a;
      var sum := Add(a, b);
      table[x] := b;
      assert table[..] == swapped;
      nx := Add(x, 1);
      ta := table[nx];
      ty := Add(y, ta);
      tb := table[ty];
      StoreOctet(text, out, n, table[sum], r, input, before, len);
    }

    /** The rounds of arc4_crypt from the entries loaded in front of the first one; those loaded in the last
        round are dropped.
     */
    method Rounds(text: array<bv8>, out: array<bv8>, len: nat, x0: byte, y0: byte, a0: byte, b0: byte,
                  ghost r: Rc4, ghost input: seq<bv8>, ghost before: seq<bv8>)
      returns (x: byte, y: byte)
      requires text as object != table && out as object != table
      requires r.Valid() && Loaded(After(r, 0), Contents(), x0, y0, a0, b0)
      requires 0 < len && Encrypted(text, out, r, input, before, 0, len)
      modifies table, out
      ensures After(r, len) == Rc4(Contents(), Add(x, 255), y)
      ensures Encrypted(text, out, r, input, before, len, len)
    {
      hide Permutation, Add, Next, Output, Swap, After, Keystream, Cipher, Loaded, Mix, Contents, Encrypted;
      x, y := x0, y0;
      var a, b, n := a0, b0, 0;
      while true
        invariant 0 <= n < len && Loaded(After(r, n), Contents(), x, y, a, b)
        invariant Encrypted(text, out, r, input, before, n, len)
        decreases len - n
      {
        var nx, ty, ta, tb := Round(text, out, n, x, y, a, b, r, input, before, len);
        n := n + 1;
        x := nx;
        if n == len {
          break;
        }
        y, a, b := ty, ta, tb;
      }
    }

    /** arc4_crypt. The text may be encrypted in place. */
    method Crypt(text: array<bv8>, out: array<bv8>, len: nat)
      requires Valid() && len <= text.Length && len <= out.Length
      requires text as object != table && out as object != table
      modifies this, table, out
      ensures Valid() && State() == After(old(State()), len)
      ensures out[..len] == Cipher(old(State()), old(text[..len]))
      ensures out[len..] == old(out[len..])
    {
      ghost var r, input, before := State(), text[..], out[..];
      assert After(r, 0) == r;
      AddUp(this.x);
      if len == 0 {
        return;
      }
      var x, y := this.x, this.y;
      var a := table[x];
      y := Add(y, a);
      var b := table[y];
      assert Loaded(After(r, 0), Contents(), x, y, a, b);
      hide Permutation, Add, Next, Output, Swap, After, Keystream, Cipher, Loaded, Mix;
      x, y := Rounds(text, out, len, x, y, a, b, r, input, before);
      EncryptedAll(text, out, r, input, before, len);
      assert input[..len] == old(text[..len]) && before[len..] == old(out[len..]);
      this.x := x;
      this.y := y;
    }
  }

  lemma WrapNext(i: nat, m: nat)
    requires m > 0
    ensures KeyIndex(i + 1, m) == if KeyIndex(i, m) + 1 >= m then 0 else KeyIndex(i, m) + 1
  {
    var q, r := i / m, i % m;
    assert i == m * q + r;
    ModOf(q, r + 1, m);
    ModOf(q + 1, 0, m);
    assert m * (q + 1) == m * q + m;
  }

  lemma ModOf(q: nat, r: nat, m: nat)
    requires m > 0
    ensures r < m ==> (m * q + r) % m == r
  {
    var a := m * q + r;
    var d := a / m;
    assert a == m * d + a % m;
    assert m * (q + 1) == m * q + m && m * (d + 1) == m * d + m;
    if q > d { MulMono(m, d + 1, q); }
    if q < d { MulMono(m, q + 1, d); }
  }

  lemma MulMono(m: nat, x: nat, y: nat)
    requires x <= y
    ensures m * x <= m * y
  {}
}
