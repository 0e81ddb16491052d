/** The bytecode-driven BER decoder (compat/lib-asn1_decoder.c:15-47, 167-518): a goto machine with
    a stack of open constructed elements and a stack of return addresses. One call of NextOp is one
    pass from `next_op` to the next `goto next_op` or to a return.
 */
module Asn1Decoder {
  import opened Asn1Indefinite
  import opened Asn1Parsed

  datatype Failure =
    | MachineOverrun | JumpUnderflow | JumpOverflow | ConsUnderflow | ConsOverflow | ConsLength
    | MissingEnd | InvalidEnd | Overrun | TooLong | PrimitiveIndefinite | TagMismatch | LongTagUnsupported
    | StacksNotEmpty | ReservedOpcode | BadElement(e: Error) | ActionFailed(code: int)

  datatype Outcome = Continue | Done | Failed(why: Failure)

  const STACK := 10

  // The bits of an opcode (include/linux/asn1_ber_bytecode.h:28-81).
  predicate Skips(op: byte) { op % 2 == 1 }
  predicate Acts(op: byte) { op / 2 % 2 == 1 }
  predicate Any(op: byte) { op / 8 % 2 == 1 }
  predicate Conditional(op: byte) { op / 16 % 2 == 1 }
  predicate EndsSet(op: byte) { op % 2 == 1 }
  predicate EndsOf(op: byte) { op / 2 % 2 == 1 }
  predicate EndsAct(op: byte) { op / 4 % 2 == 1 }

  predicate MatchesTag(op: byte) { op <= 0x1b }
  predicate MatchLeaf(op: byte) {
    op in {0x00, 0x01, 0x02, 0x03, 0x08, 0x09, 0x0a, 0x0b, 0x11, 0x13, 0x18, 0x19, 0x1a, 0x1b}
  }
  predicate MatchJump(op: byte) { op in {0x04, 0x05, 0x15} }

  /** asn1_op_lengths; the reserved opcodes below ASN1_OP__NR have length 0. */
  function OpLength(op: byte, beyond: byte -> byte): nat {
    if op >= 0x29 then beyond(op)
    else if op in {0x08, 0x09, 0x18, 0x19, 0x1c, 0x1d, 0x20, 0x21, 0x28} then 1
    else if op in {0x00, 0x01, 0x0a, 0x0b, 0x11, 0x1a, 0x1b, 0x1e, 0x1f, 0x22, 0x23, 0x24, 0x25} then 2
    else if op in {0x02, 0x03, 0x04, 0x05, 0x13, 0x15, 0x26, 0x27} then 3
    else 0
  }

  /** A tag without its constructed bit. */
  function BareTag(t: byte): byte { if Constructed(t) then t - 32 else t }

  /** Bit 5 is ignored where the expected tag has it, and compared otherwise. */
  predicate SameTag(expected: byte, tag: byte) {
    if Constructed(expected) then BareTag(expected) == BareTag(tag) else expected == tag
  }

  datatype TagCheck = Rejected(why: Failure) | Skipped(cons: bool) | Accepted(cons: bool)

  /** Lines 241-257: the tag found in the data against the one the operation expects. */
  function CheckTag(op: byte, optag: byte, tag: byte): TagCheck {
    if tag % 32 == 31 then Rejected(LongTagUnsupported)
    else if Any(op) then Accepted(false)
    else if SameTag(optag, tag) then Accepted(Constructed(optag))
    else if Skips(op) then Skipped(Constructed(optag))
    else Rejected(TagMismatch)
  }

  /** The tag is one that the operation matches. */
  predicate Expected(op: byte, optag: byte, tag: byte) {
    tag % 32 != 31 && (Any(op) || SameTag(optag, tag))
  }

  /** At most 3 length octets, of contents that lie within the data, follow the tag at p. */
  predicate Fits(d: seq<byte>, p: nat) {
    && p + 2 <= |d|
    && var r := ParseLength(d, p, p + 1);
       r.Ok? && r.value.body <= p + 4 && r.value.body + (if r.value.indefinite then 2 else r.value.len) <= |d|
  }

  /** The header after the tag at p. */
  function HeaderOf(d: seq<byte>, p: nat): Result<Header>
    requires p + 2 <= |d|
  {
    ParseLength(d, p, p + 1)
  }

  /** Where a value that is not parsed ends. */
  function ValueEnd(d: seq<byte>, p: nat): Result<nat>
    requires Fits(d, p)
  {
    var h := HeaderOf(d, p).value;
    if h.indefinite then Scan(d, h.body, 1) else Ok(h.body + h.len)
  }

  /** The operation goes through for the tag at p, with csp open values and jsp stacked addresses. */
  predicate Proceeds(op: byte, optag: byte, d: seq<byte>, p: nat, csp: nat, jsp: nat, act: int) {
    && Fits(d, p) && Expected(op, optag, d[p]) && (Opens(op, optag) ==> csp < STACK)
    && if MatchJump(op) then jsp < STACK
       else MatchLeaf(op) && (Opens(op, optag) || ValueEnd(d, p).Ok?) && (Acts(op) ==> act >= 0)
  }

  /** The value of the tag is to be parsed. */
  predicate Opens(op: byte, optag: byte) { !Any(op) && Constructed(optag) }

  /** The operation is skipped, before the data `rest`. */
  predicate PassedOver(op: byte, optag: byte, matched: bool, rest: seq<byte>) {
    || (Conditional(op) && matched)
    || (Skips(op) && (rest == [] || (|rest| >= 2 && rest[0] % 32 != 31 && !Expected(op, optag, rest[0]))))
  }

  /** A tag is matched that begins no data value, or a jump is made into a value that is not constructed. */
  predicate Irregular(op: byte, optag: byte, tag: byte) {
    tag == 0 || (MatchJump(op) && !Constructed(optag))
  }

  /** The open value is over, before the data `rest`. */
  predicate IsOver(definite: bool, rest: seq<byte>) {
    if definite then rest == [] else |rest| >= 2 && rest[0] == rest[1] == 0
  }

  /** The list of values in the open one goes on. */
  predicate GoesOn(op: byte, definite: bool, rest: seq<byte>) {
    EndsOf(op) && if definite then rest != [] else |rest| >= 2 && rest[0] != 0
  }

  // ----- what the stacks mean -----

  /** The end in force inside the first `i` open elements: the innermost definite one's, or else
      the end of the data. */
  function Enclosing(ends: seq<Option<nat>>, i: nat, total: nat): nat
    requires i <= |ends|
  {
    if i == 0 then total
    else if ends[i - 1].Some? then ends[i - 1].value
    else Enclosing(ends, i - 1, total)
  }

  lemma {:induction false} EnclosingPrefix(ends: seq<Option<nat>>, more: seq<Option<nat>>, i: nat, total: nat)
    requires i <= |ends|
    ensures Enclosing(ends + more, i, total) == Enclosing(ends, i, total)
  {
    if i > 0 { EnclosingPrefix(ends, more, i - 1, total); }
  }

  /** Open element `i` starts no later than the cursor `dp`; a definite one ends within the element
      around it, whose end `outers` remembers, and 0 is remembered for an indefinite one. */
  predicate Level(starts: seq<nat>, outers: seq<nat>, ends: seq<Option<nat>>, dp: nat, total: nat, i: nat)
    requires i < |starts| == |outers| == |ends|
  {
    && 2 <= starts[i] <= dp
    && outers[i] == (if ends[i].Some? then Enclosing(ends, i, total) else 0)
    && (ends[i].Some? ==> starts[i] <= ends[i].value <= Enclosing(ends, i, total))
  }

  ghost predicate Nested(starts: seq<nat>, outers: seq<nat>, ends: seq<Option<nat>>, dp: nat, total: nat) {
    && |starts| == |outers| == |ends|
    && forall i :: 0 <= i < |ends| ==> Level(starts, outers, ends, dp, total, i)
  }

  lemma NestedLater(starts: seq<nat>, outers: seq<nat>, ends: seq<Option<nat>>, dp: nat, later: nat, total: nat)
    requires Nested(starts, outers, ends, dp, total) && dp <= later
    ensures Nested(starts, outers, ends, later, total)
  {
    forall i | 0 <= i < |ends| ensures Level(starts, outers, ends, later, total, i) {
      assert Level(starts, outers, ends, dp, total, i);
    }
  }

  lemma NestedPush(starts: seq<nat>, outers: seq<nat>, ends: seq<Option<nat>>, dp: nat, total: nat, end: Option<nat>)
    requires Nested(starts, outers, ends, dp, total) && dp >= 2
    requires end.Some? ==> dp <= end.value <= Enclosing(ends, |ends|, total)
    ensures Nested(starts + [dp], outers + [if end.Some? then Enclosing(ends, |ends|, total) else 0],
                   ends + [end], dp, total)
    ensures Enclosing(ends + [end], |ends| + 1, total) ==
            if end.Some? then end.value else Enclosing(ends, |ends|, total)
  {
    var s, o, e := starts + [dp], outers + [if end.Some? then Enclosing(ends, |ends|, total) else 0], ends + [end];
    EnclosingPrefix(ends, [end], |ends|, total);
    forall i | 0 <= i < |e| ensures Level(s, o, e, dp, total, i) {
      if i < |ends| {
        EnclosingPrefix(ends, [end], i, total);
        assert Level(starts, outers, ends, dp, total, i);
      }
    }
  }

  lemma {:induction false} EnclosingBound(starts: seq<nat>, outers: seq<nat>, ends: seq<Option<nat>>,
                                          dp: nat, total: nat, i: nat)
    requires Nested(starts, outers, ends, dp, total) && i <= |ends|
    ensures Enclosing(ends, i, total) <= total
  {
    if i > 0 {
      assert Level(starts, outers, ends, dp, total, i - 1);
      EnclosingBound(starts, outers, ends, dp, total, i - 1);
    }
  }

  lemma NestedPop(starts: seq<nat>, outers: seq<nat>, ends: seq<Option<nat>>, dp: nat, total: nat)
    requires Nested(starts, outers, ends, dp, total) && ends != []
    ensures var n := |ends| - 1;
            && Nested(starts[..n], outers[..n], ends[..n], dp, total)
            && Enclosing(ends, n + 1, total) <= Enclosing(ends[..n], n, total) <= total
            && starts[n] <= dp && (outers[n] == 0 <==> ends[n].None?)
            && Enclosing(ends[..n], n, total) ==
               (if ends[n].Some? then outers[n] else Enclosing(ends, n + 1, total))
  {
    var n := |ends| - 1;
    var s, o, e := starts[..n], outers[..n], ends[..n];
    assert ends == e + [ends[n]];
    assert Level(starts, outers, ends, dp, total, n);
    EnclosingPrefix(e, [ends[n]], n, total);
    EnclosingBound(starts, outers, ends, dp, total, n);
    forall i | 0 <= i < n ensures Level(s, o, e, dp, total, i) {
      EnclosingPrefix(e, [ends[n]], i, total);
      assert Level(starts, outers, ends, dp, total, i);
    }
  }

  class Decoder {
    const machine: seq<byte>
    const data: seq<byte>
    /** What lies in memory behind the program and behind the table of opcode lengths; a program that
        is not the compiler's own output may make the decoder read there. */
    const behind: nat -> byte
    const beyond: byte -> byte

    var pc: nat
    var dp: nat
    var datalen: nat
    var tdp: nat
    var len: nat
    var tag: byte
    var hdr: nat
    var indefinite: bool
    var matched: bool
    var lastMatched: bool
    var cons: bool
    var csp: nat
    var jsp: nat
    const consDp: array<nat>
    const consDatalen: array<nat>
    const consHdrlen: array<nat>
    const jumps: array<nat>

    /** The declared end of each open element; none for an indefinite one. */
    ghost var ends: seq<Option<nat>>

    function Fetch(i: nat): byte {
      if i < |machine| then machine[i] else behind(i)
    }

    ghost predicate ArraysOk() {
      && consDp.Length == consDatalen.Length == consHdrlen.Length == jumps.Length == STACK
      && consDp != consDatalen && consDp != consHdrlen && consDp != jumps
      && consDatalen != consHdrlen && consDatalen != jumps && consHdrlen != jumps
    }

    ghost predicate JumpsOk()
      requires ArraysOk()
      reads this`jsp, jumps
    {
      jsp <= STACK && forall i :: 0 <= i < jsp ==> jumps[i] < 256
    }

    ghost predicate Valid()
      reads this`dp, this`datalen, this`csp, this`jsp, this`ends, consDp, consDatalen, jumps
    {
      && |data| <= 65535 && ArraysOk() && JumpsOk()
      && dp <= datalen <= |data|
      && csp == |ends| <= STACK
      && datalen == Enclosing(ends, |ends|, |data|)
      && Nested(consDp[..csp], consDatalen[..csp], ends, dp, |data|)
    }

    /** The cursor only moves forward, which keeps the open elements in order. */
    lemma Advance(later: nat)
      requires Valid() && dp <= later <= datalen
      ensures Nested(consDp[..csp], consDatalen[..csp], ends, later, |data|)
    {
      NestedLater(consDp[..csp], consDatalen[..csp], ends, dp, later, |data|);
    }

    constructor (machine: seq<byte>, data: seq<byte>, behind: nat -> byte, beyond: byte -> byte)
      requires |data| <= 65535
      ensures Valid() && fresh(consDp) && fresh(consDatalen) && fresh(consHdrlen) && fresh(jumps)
      ensures this.machine == machine && this.data == data && this.behind == behind && this.beyond == beyond
      ensures pc == 0 && dp == 0 && datalen == |data| && csp == 0 && jsp == 0 && ends == [] && !matched
    {
      this.machine, this.data, this.behind, this.beyond := machine, data, behind, beyond;
      pc, dp, datalen, tdp, len, tag, hdr := 0, 0, |data|, 0, 0, 0, 0;
      indefinite, matched, lastMatched, cons := false, false, false, false;
      csp, jsp := 0, 0;
      consDp := new nat[STACK](_ => 0);
      consDatalen := new nat[STACK](_ => 0);
      consHdrlen := new nat[STACK](_ => 0);
      jumps := new nat[STACK](_ => 0);
      ends := [];
    }

    /** The long form of length octets at p. */
    lemma LongLength(p: nat, n: nat)
      requires 1 <= n <= 7 && p + 1 + n <= |data| && data[p] == 128 + n
      ensures LengthOctets(data[p..p + 1 + n], BigEndian(data, p + 1, n))
    {
      var l := data[p..p + 1 + n];
      assert l[1..1 + n] == data[p + 1..p + 1 + n];
      BigEndianSame(data, p + 1, l, 1, n);
    }

    /** And the short form. */
    lemma ShortLength(p: nat)
      requires p < |data| && data[p] < 128
      ensures LengthOctets(data[p..p + 1], data[p])
    {}

    /** The length, if it is definite. */
    function Length(): nat
      reads this`len, this`indefinite
    {
      if indefinite then 0 else len
    }

    /** The header that is read, and when it is. */
    lemma HeaderRead(p: nat)
      requires 0 < p < datalen <= |data|
      ensures data[p] < 128 ==> HeaderOf(data[..datalen], p - 1) == Ok(Header(p + 1, false, data[p]))
      ensures data[p] == 128 && Constructed(data[p - 1]) ==>
        HeaderOf(data[..datalen], p - 1) == Ok(Header(p + 1, true, 0))
      ensures 128 < data[p] <= 130 && data[p] - 128 <= datalen - (p + 1) ==> var n := data[p] - 128;
        HeaderOf(data[..datalen], p - 1) == Ok(Header(p + 1 + n, false, BigEndian(data, p + 1, n)))
      ensures data[p] < 128 ==> (Fits(data[..datalen], p - 1) <==> data[p] <= datalen - (p + 1))
      ensures data[p] == 128 ==> (Fits(data[..datalen], p - 1) <==> Constructed(data[p - 1]) && 2 <= datalen - (p + 1))
      ensures data[p] > 130 ==> !Fits(data[..datalen], p - 1)
      ensures 128 < data[p] <= 130 ==> var n := data[p] - 128;
        Fits(data[..datalen], p - 1) <==>
          n <= datalen - (p + 1) && BigEndian(data, p + 1, n) <= datalen - (p + 1 + n)
    {
      var d := data[..datalen];
      if 128 < data[p] <= 130 && data[p] - 128 <= datalen - (p + 1) {
        var n := data[p] - 128;
        assert d[p + 1..p + 1 + n] == data[p + 1..p + 1 + n];
        BigEndianSame(data, p + 1, d, p + 1, n);
      }
    }

    /** Lines 260-286: the length octets after the tag. */
    method ReadContentLength() returns (o: Outcome)
      requires 1 <= dp < datalen <= |data| && tag == data[dp - 1]
      modifies this`dp, this`len, this`hdr, this`indefinite
      ensures o != Done && old(dp) <= dp <= datalen
      ensures o == Continue <==> Fits(data[..datalen], old(dp) - 1)
      ensures o == Continue ==> HeaderOf(data[..datalen], old(dp) - 1) == Ok(Header(dp, indefinite, Length()))
      ensures o == Continue ==> old(dp) < dp && hdr == old(hdr) + (dp - old(dp) - 1)
      ensures o == Continue && indefinite ==> Constructed(tag) && data[old(dp)..dp] == [128] && dp + 2 <= datalen
      ensures o == Continue && !indefinite ==> LengthOctets(data[old(dp)..dp], len) && dp + len <= datalen
    {
      HeaderRead(dp);
      if data[dp] < 128 { ShortLength(dp); }
      hide Nested, Enclosing, LengthOctets, BigEndian, ArraysOk, JumpsOk, Fits, HeaderOf;
      len := data[dp];
      dp := dp + 1;
      indefinite := false;
      if len > 0x7f {
        if len == 0x80 {
          if !Constructed(tag) {
            return Failed(PrimitiveIndefinite);
          }
          indefinite := true;
          if 2 > datalen - dp {
            return Failed(Overrun);
          }
        } else {
          var n := len - 0x80;
          if n > 2 {
            return Failed(TooLong);
          }
          if n > datalen - dp {
            return Failed(Overrun);
          }
          LongLength(dp - 1, n);
          hdr := hdr + n;
          len := ReadLength(data, dp, n);
          dp := dp + n;
          if len > datalen - dp {
            return Failed(Overrun);
          }
        }
      } else if len > datalen - dp {
        return Failed(Overrun);
      }
      return Continue;
    }

    /** Lines 288-303: the positions of an expected compound form are stacked. */
    method PushCons() returns (o: Outcome)
      requires Valid() && dp >= 2 && (!indefinite ==> dp + len <= datalen)
      modifies this`csp, this`datalen, this`ends, consDp, consDatalen, consHdrlen
      ensures o == (if old(csp) >= STACK then Failed(ConsOverflow) else Continue)
      ensures o == Continue ==> Valid() && csp == old(csp) + 1
      ensures o == Continue ==> ends == old(ends) + [if indefinite then None else Some(dp + len)]
      ensures o == Continue ==> consDp[..csp] == old(consDp[..csp]) + [dp] && consHdrlen[csp - 1] == hdr
    {
      if csp >= STACK {
        return Failed(ConsOverflow);
      }
      ghost var end := if indefinite then None else Some(dp + len);
      NestedPush(consDp[..csp], consDatalen[..csp], ends, dp, |data|, end);
      consDp[csp] := dp;
      consHdrlen[csp] := hdr;
      if !indefinite {
        consDatalen[csp] := datalen;
        datalen := dp + len;
      } else {
        consDatalen[csp] := 0;
      }
      csp := csp + 1;
      ends := ends + [end];
      assert consDp[..csp] == old(consDp[..csp]) + [dp];
      assert consDatalen[..csp] == old(consDatalen[..csp]) + [consDatalen[csp - 1]];
      return Continue;
    }

    /** The header just read: it began at p, and the cursor is behind it. */
    ghost predicate Framed(p: nat)
      reads this`dp, this`len, this`hdr, this`indefinite
    {
      && p + 2 <= dp <= |data| && data[p] % 32 != 31 && hdr == dp - p
      && if indefinite then Constructed(data[p]) && data[p + 1..dp] == [128]
         else LengthOctets(data[p + 1..dp], len) && dp + len <= |data|
    }

    lemma JumpNotAny(op: byte)
      ensures MatchJump(op) ==> !Any(op)
    {}

    lemma FramedHeader(p: nat)
      requires Framed(p) && data[p] != 0
      ensures HeaderAt(data, p, dp, if indefinite then None else Some(dp + len))
    {}

    /** Lines 258-307: the rest of the header, and the stacking of an expected compound form. */
    method OpenElement() returns (o: Outcome)
      requires Valid() && 1 <= dp < datalen && tag == data[dp - 1] && tag % 32 != 31 && hdr == 2
      modifies this`dp, this`len, this`hdr, this`indefinite, this`csp, this`datalen, this`ends, this`tdp,
               consDp, consDatalen, consHdrlen
      ensures o != Done
      ensures o == Continue <==> Fits(data[..old(datalen)], old(dp) - 1) && (cons ==> old(csp) < STACK)
      ensures o == Continue ==> HeaderOf(data[..old(datalen)], old(dp) - 1) == Ok(Header(dp, indefinite, Length()))
      ensures o == Continue ==> Valid() && old(dp) < dp && Framed(old(dp) - 1) && tdp == dp
      ensures o == Continue && !cons ==>
        ends == old(ends) && consDp[..csp] == old(consDp[..csp]) && datalen == old(datalen)
      ensures o == Continue && cons ==> ends == old(ends) + [if indefinite then None else Some(dp + len)]
      ensures o == Continue && cons ==> consDp[..csp] == old(consDp[..csp]) + [dp]
      ensures o == Continue && !cons && !indefinite ==> dp + len <= datalen
    {
      hide Nested, Enclosing, LengthOctets, Fits, HeaderOf;
      assert data[dp - 1..dp] == [tag];
      o := ReadContentLength();
      if o != Continue {
        return;
      }
      NestedLater(consDp[..csp], consDatalen[..csp], ends, old(dp), dp, |data|);
      assert Framed(old(dp) - 1);
      if cons {
        o := PushCons();
        if o != Continue {
          return;
        }
      }
      tdp := dp;
    }

    /** Lines 212-257: skip the operation, or read a tag that is the expected one. */
    method ReadTag(op: byte) returns (o: Option<Outcome>)
      requires Valid()
      modifies this`pc, this`dp, this`tag, this`hdr, this`indefinite, this`matched, this`lastMatched, this`cons
      ensures o != Some(Done)
      ensures o == Some(Continue) <==> PassedOver(op, Fetch(old(pc) + 1), old(matched), data[old(dp)..datalen])
      ensures o == Some(Continue) ==> dp == old(dp) && pc == old(pc) + OpLength(op, beyond)
      ensures o == None <==> !PassedOver(op, Fetch(old(pc) + 1), old(matched), data[old(dp)..datalen]) &&
                             datalen - old(dp) >= 2 && Expected(op, Fetch(old(pc) + 1), data[old(dp)])
      ensures o == None ==> dp == old(dp) + 1 < datalen && pc == old(pc) && tag == data[dp - 1] && hdr == 2 && matched
      ensures o == None ==> (cons <==> Opens(op, Fetch(pc + 1)))
    {
      hide Nested, Enclosing, OpLength, ArraysOk, JumpsOk, Conditional, Skips, Any, SameTag;
      if (Conditional(op) && matched) || (Skips(op) && dp == datalen) {
        lastMatched := false;
        pc := pc + OpLength(op, beyond);
        return Some(Continue);
      }
      indefinite, matched, lastMatched, cons := false, false, false, false;
      hdr := 2;
      if datalen - dp < 2 {
        return Some(Failed(Overrun));
      }
      tag := data[dp];
      match CheckTag(op, Fetch(pc + 1), tag) {
        case Rejected(why) =>
          return Some(Failed(why));
        case Skipped(c) =>
          cons := c;
          pc := pc + OpLength(op, beyond);
          return Some(Continue);
        case Accepted(c) =>
          cons := c;
          matched := true;
      }
      dp := dp + 1;
      return None;
    }

    /** Lines 212-308: what every tag-matching operation does first. Continue means that the
        operation is over; otherwise, with no outcome, the operation itself follows. */
    method MatchTag(op: byte) returns (o: Option<Outcome>)
      requires Valid()
      modifies this, consDp, consDatalen, consHdrlen
      ensures o != Some(Done)
      ensures o == Some(Continue) <==> PassedOver(op, Fetch(old(pc) + 1), old(matched), data[old(dp)..old(datalen)])
      ensures o == Some(Continue) ==>
        Valid() && ends == old(ends) && dp == old(dp) && pc == old(pc) + OpLength(op, beyond)
      ensures o == Some(Continue) ==> consDp[..csp] == old(consDp[..csp])
      ensures o == Some(Continue) ==> jsp == old(jsp) && csp == old(csp)
      ensures o == None <==>
        && !PassedOver(op, Fetch(old(pc) + 1), old(matched), data[old(dp)..old(datalen)])
        && Fits(data[..old(datalen)], old(dp)) && Expected(op, Fetch(old(pc) + 1), data[old(dp)])
        && (Opens(op, Fetch(old(pc) + 1)) ==> old(csp) < STACK)
      ensures o == None ==> HeaderOf(data[..old(datalen)], old(dp)) == Ok(Header(dp, indefinite, Length()))
      ensures o == None && !cons ==> datalen == old(datalen)
      ensures o == None ==> Valid() && old(dp) + 2 <= dp && Framed(old(dp)) && pc == old(pc) && jsp == old(jsp)
      ensures o == None ==> matched && tag == data[old(dp)] && Expected(op, Fetch(pc + 1), tag)
      ensures o == None ==> (cons <==> Opens(op, Fetch(pc + 1)))
      ensures o == None && !cons ==> ends == old(ends) && consDp[..csp] == old(consDp[..csp])
      ensures o == None && cons ==> ends == old(ends) + [if indefinite then None else Some(dp + len)]
      ensures o == None && cons ==> consDp[..csp] == old(consDp[..csp]) + [dp]
      ensures o == None && !cons && !indefinite ==> dp + len <= datalen
    {
      hide Nested, Enclosing, ArraysOk, JumpsOk, OpLength, PassedOver, SameTag, Any, Framed, HeaderOf;
      if dp < datalen { Advance(dp + 1); }
      o := ReadTag(op);
      if o.None? {
        var r := OpenElement();
        o := if r == Continue then None else Some(r);
      }
    }

    /** Whether the innermost open element, whose recorded outer end is `outer`, ends at the cursor. */
    method AtEnd(op: byte, outer: nat) returns (o: Outcome, closed: bool)
      requires dp <= datalen <= |data|
      modifies this`dp
      ensures o != Done
      ensures closed <==> IsOver(outer != 0, data[old(dp)..datalen])
      ensures o == Continue <==> closed || GoesOn(op, outer != 0, data[old(dp)..datalen])
      ensures dp == if closed && outer == 0 then old(dp) + 2 else old(dp)
    {
      closed := false;
      if outer == 0 {
        if datalen - dp < 2 {
          return Failed(Overrun), false;
        }
        if data[dp] != 0 {
          return if EndsOf(op) then Continue else Failed(MissingEnd), false;
        }
        if data[dp + 1] != 0 {
          return Failed(InvalidEnd), false;
        }
        dp := dp + 2;
      } else {
        if dp < datalen && EndsOf(op) {
          return Continue, false;
        }
        if dp != datalen {
          return Failed(ConsLength), false;
        }
      }
      return Continue, true;
    }

    /** Leave the innermost open element, which began at consDp[csp - 1] and was seen to end. */
    method Pop(ghost before: nat)
      requires ArraysOk() && JumpsOk() && |data| <= 65535 && 0 < csp == |ends| <= STACK
      requires before <= dp <= datalen == Enclosing(ends, |ends|, |data|)
      requires Nested(consDp[..csp], consDatalen[..csp], ends, before, |data|)
      modifies this`csp, this`datalen, this`ends
      ensures Valid() && csp == old(csp) - 1 && ends == old(ends)[..csp] && consDp[..csp] == old(consDp[..csp])[..csp]
      ensures old(ends)[csp].None? ==> datalen == old(datalen)
    {
      hide Nested, Enclosing;
      NestedPop(consDp[..csp], consDatalen[..csp], ends, before, |data|);
      ghost var starts, outers := consDp[..csp], consDatalen[..csp];
      csp := csp - 1;
      if consDatalen[csp] != 0 {
        datalen := consDatalen[csp];
      }
      ends := ends[..csp];
      assert consDp[..csp] == starts[..csp] && consDatalen[..csp] == outers[..csp];
      NestedLater(consDp[..csp], consDatalen[..csp], ends, before, dp, |data|);
    }

    /** What is left of the data in force. */
    function Rest(): seq<byte>
      reads this`dp, this`datalen
    {
      if dp <= datalen <= |data| then data[dp..datalen] else []
    }

    /** The innermost open value has a definite length. */
    ghost predicate Definite()
      reads this`ends
    {
      ends != [] && ends[|ends| - 1].Some?
    }

    lemma TopLevel(op: byte)
      requires Valid() && csp > 0
      ensures consDp[csp - 1] <= dp && (consDatalen[csp - 1] != 0 <==> Definite()) && Rest() == data[dp..datalen]
      ensures IsOver(Definite(), Rest()) ==>
        dp + (if Definite() then 0 else 2) <= datalen &&
        Closes(data, ends[csp - 1], dp, if Definite() then dp else dp + 2)
      ensures GoesOn(op, Definite(), Rest()) ==> dp < datalen && !IsOver(Definite(), Rest())
    {
      NestedPop(consDp[..csp], consDatalen[..csp], ends, dp, |data|);
    }

    /** The ASN1_OP_END_* operations (lines 380-444): close the innermost open element, or, for a
        "SEQUENCE OF" or "SET OF" that goes on, jump back to its start. */
    method End(op: byte, act: int) returns (o: Outcome, ghost closed: bool)
      requires Valid()
      modifies this
      ensures o != Done
      ensures o == Continue <==>
        && (EndsSet(op) && !EndsOf(op) ==> old(matched)) && old(csp) > 0
        && (IsOver(old(Definite()), old(Rest())) || GoesOn(op, old(Definite()), old(Rest())))
        && (closed && EndsAct(op) ==> act >= 0)
      ensures o == Continue ==> Valid() && old(csp) >= 1 && jsp == old(jsp)
      ensures o == Continue ==> (closed <==> IsOver(old(Definite()), old(Rest())))
      ensures o == Continue && !closed ==> ends == old(ends) && consDp[..csp] == old(consDp[..csp])
      ensures o == Continue && !closed ==> dp == old(dp) < datalen && pc == Fetch(old(pc) + 1)
      ensures o == Continue && closed ==> csp == old(csp) - 1 && pc == old(pc) + OpLength(op, beyond)
      ensures o == Continue && closed ==> ends == old(ends)[..csp] && consDp[..csp] == old(consDp[..csp])[..csp]
      ensures o == Continue && closed ==> Closes(data, old(ends)[csp], old(dp), dp)
      ensures o == Continue && closed ==> tdp == old(consDp[..csp])[csp] <= old(dp) && len == old(dp) - tdp
    {
      hide Nested, Enclosing, OpLength, ArraysOk, JumpsOk, EndsOf, EndsSet, EndsAct, IsOver, GoesOn, Closes;
      closed := false;
      if EndsSet(op) && !EndsOf(op) && !matched {
        return Failed(TagMismatch), false;
      }
      if csp <= 0 {
        return Failed(ConsUnderflow), false;
      }
      TopLevel(op);
      Lengths();
      ghost var dp0, start := dp, consDp[..csp][csp - 1];
      var end: bool;
      tdp, hdr, len := consDp[csp - 1], consHdrlen[csp - 1], datalen;
      o, end := AtEnd(op, consDatalen[csp - 1]);
      closed := end;
      if o != Continue {
        return;
      }
      if !end {
        pc := Fetch(pc + 1);
        return;
      }
      o := Leave(op, act, dp0);
    }

    /** The end of the open value that began at tdp, whose contents end at `before`. */
    method Leave(op: byte, act: int, ghost before: nat) returns (o: Outcome)
      requires ArraysOk() && JumpsOk() && |data| <= 65535 && 0 < csp == |ends| <= STACK
      requires before <= dp <= datalen == Enclosing(ends, |ends|, |data|)
      requires Nested(consDp[..csp], consDatalen[..csp], ends, before, |data|)
      requires tdp <= before && dp == before + if consDatalen[csp - 1] == 0 then 2 else 0
      modifies this`len, this`csp, this`datalen, this`ends, this`pc
      ensures o != Done && (o == Continue <==> (EndsAct(op) ==> act >= 0))
      ensures o == Continue ==> Valid() && csp == old(csp) - 1 && ends == old(ends)[..csp]
      ensures o == Continue ==> consDp[..csp] == old(consDp[..csp])[..csp]
      ensures o == Continue ==> len == before - tdp && pc == old(pc) + OpLength(op, beyond)
    {
      hide Nested, Enclosing, OpLength, ArraysOk, JumpsOk, EndsAct;
      Lengths();
      len := if consDatalen[csp - 1] == 0 then dp - tdp - 2 else dp - tdp;
      Pop(before);
      if EndsAct(op) && act < 0 {
        return Failed(ActionFailed(act));
      }
      pc := pc + OpLength(op, beyond);
      return Continue;
    }

    lemma Lengths()
      requires ArraysOk()
      ensures consDp.Length == consDatalen.Length == consHdrlen.Length == jumps.Length == STACK
    {}

    /** The operations that look at no data (lines 366-378, 446-465). */
    method OtherOp(op: byte, act: int) returns (o: Outcome)
      requires Valid()
      modifies this`pc, this`jsp, this`matched, this`lastMatched
      ensures o == Done <==> op == 0x1d && old(jsp) == 0 && csp == 0
      ensures o == Continue <==>
        || (op == 0x1c && old(matched)) || (op == 0x1e && act >= 0) || (op == 0x1f && (old(lastMatched) ==> act >= 0))
        || (op == 0x28 && old(jsp) > 0)
      ensures o == Continue && op == 0x28 ==> jsp == old(jsp) - 1 && pc == jumps[jsp] && matched && lastMatched
      ensures op != 0x28 ==> jsp == old(jsp) && matched == old(matched) && lastMatched == old(lastMatched)
      ensures o == Continue && op != 0x28 ==> pc == old(pc) + OpLength(op, beyond)
      ensures o != Done ==> (o == Continue || o.Failed?) && Valid()
    {
      hide Nested, Enclosing, OpLength;
      if op == 0x1c {  // ASN1_OP_COND_FAIL
        if !matched {
          return Failed(TagMismatch);
        }
      } else if op == 0x1d {  // ASN1_OP_COMPLETE
        return if jsp != 0 || csp != 0 then Failed(StacksNotEmpty) else Done;
      } else if op == 0x1e || op == 0x1f {  // ASN1_OP_ACT, ASN1_OP_MAYBE_ACT
        if (op == 0x1e || lastMatched) && act < 0 {
          return Failed(ActionFailed(act));
        }
      } else if op == 0x28 {  // ASN1_OP_RETURN
        if jsp <= 0 {
          return Failed(JumpUnderflow);
        }
        jsp := jsp - 1;
        pc := jumps[jsp];
        matched, lastMatched := true, true;
        return Continue;
      } else {
        return Failed(ReservedOpcode);
      }
      pc := pc + OpLength(op, beyond);
      return Continue;
    }

    /** Where the contents of a value that is not parsed end. */
    function ContentsEnd(): (q: Result<nat>)
      requires dp <= datalen <= |data|
      reads this`dp, this`datalen, this`len, this`indefinite
    {
      if indefinite then Scan(data[..datalen], dp, 1) else Ok(dp + len)
    }

    lemma LeafElement(p: nat, q: nat)
      requires Framed(p) && dp <= datalen <= |data| && ContentsEnd() == Ok(q) && q <= |data|
      ensures ElementAt(data, p, q) <==> data[p] != 0
    {
      if ElementAt(data, p, q) { ElementHead(data, p, q); }
      if data[p] != 0 {
        FramedHeader(p);
        if indefinite { IndefiniteAt(data, datalen, p, dp, q); } else { DefiniteAt(data, p, dp, q); }
      }
    }

    /** ASN1_OP_MATCH_JUMP and its variants: the return address is cut down to an octet. */
    method PushJump(op: byte) returns (o: Outcome)
      requires Valid()
      modifies this`pc, this`jsp, jumps
      ensures o != Done && (o == Continue <==> old(jsp) < STACK)
      ensures o == Continue ==> Valid() && jsp == old(jsp) + 1 && pc == Fetch(old(pc) + 2)
      ensures o == Continue ==> jumps[jsp - 1] == (old(pc) + OpLength(op, beyond)) % 256
      ensures o == Continue ==> forall i :: 0 <= i < old(jsp) ==> jumps[i] == old(jumps[i])
    {
      hide Nested, Enclosing, OpLength;
      if jsp == STACK {
        return Failed(JumpOverflow);
      }
      jumps[jsp] := (pc + OpLength(op, beyond)) % 256;
      jsp := jsp + 1;
      pc := Fetch(pc + 2);
      return Continue;
    }

    /** The operations that take the whole value, or leave its contents to the operations that follow. */
    method PassValue(op: byte, act: int, ghost p: nat) returns (o: Outcome)
      requires Valid() && Framed(p) && (!cons && !indefinite ==> dp + len <= datalen)
      modifies this`pc, this`dp, this`len
      ensures o != Done
      ensures o == Continue <==> (old(cons) || old(ContentsEnd()).Ok?) && (Acts(op) ==> act >= 0)
      ensures o == Continue ==> Valid() && old(dp) <= dp && pc == old(pc) + OpLength(op, beyond)
      ensures o == Continue && cons ==> dp == old(dp)
      ensures o == Continue && !cons ==> old(ContentsEnd()) == Ok(dp) && (ElementAt(data, p, dp) <==> data[p] != 0)
    {
      hide Nested, Enclosing, OpLength, LengthOctets, ElementAt, Scan, ArraysOk, JumpsOk;
      if !cons && indefinite {
        var r := FindIndefiniteLength(data, datalen, dp);
        if r.Fail? {
          return Failed(BadElement(r.error));
        }
        assert |data[..datalen]| == datalen;
        len := r.value - dp;
      }
      if Acts(op) && act < 0 {
        return Failed(ActionFailed(act));
      }
      if !cons {
        LeafElement(p, dp + len);
        Advance(dp + len);
        dp := dp + len;
      }
      pc := pc + OpLength(op, beyond);
      return Continue;
    }

    /** What a tag-matching operation does once its tag has matched (lines 310-364), for the tag at p. */
    method AfterMatch(op: byte, act: int, ghost p: nat) returns (o: Outcome)
      requires Valid() && MatchesTag(op) && Framed(p) && (!cons && !indefinite ==> dp + len <= datalen)
      modifies this, jumps
      ensures o != Done
      ensures o == Continue <==>
        || (MatchJump(op) && old(jsp) < STACK)
        || (MatchLeaf(op) && (old(cons) || old(ContentsEnd()).Ok?) && (Acts(op) ==> act >= 0))
      ensures o == Continue ==>
        Valid() && old(dp) <= dp && cons == old(cons) && ends == old(ends) && consDp[..csp] == old(consDp[..csp])
      ensures o == Continue && MatchJump(op) ==> dp == old(dp) && jsp == old(jsp) + 1 && pc == Fetch(old(pc) + 2)
      ensures o == Continue && MatchJump(op) ==>
        jumps[jsp - 1] == (old(pc) + OpLength(op, beyond)) % 256
      ensures o == Continue ==> forall i :: 0 <= i < old(jsp) ==> jumps[i] == old(jumps[i])
      ensures o == Continue && MatchLeaf(op) ==> jsp == old(jsp) && pc == old(pc) + OpLength(op, beyond)
      ensures o == Continue && MatchLeaf(op) && cons ==> dp == old(dp)
      ensures o == Continue && MatchLeaf(op) && !cons ==>
        old(ContentsEnd()) == Ok(dp) && (ElementAt(data, p, dp) <==> data[p] != 0)
    {
      hide Nested, Enclosing, OpLength, LengthOctets, ElementAt, Scan, ContentsEnd, Framed;
      if MatchJump(op) {
        o := PushJump(op);
      } else if MatchLeaf(op) {
        o := PassValue(op, act, p);
      } else {
        o := Failed(ReservedOpcode);
      }
    }

    // ----- rounds -----

    /** The operation at pc is all there. */
    predicate InRange(pc: nat) { pc < |machine| && pc + OpLength(machine[pc], beyond) <= |machine| }

    /** A round that matches, at address r.0 of the program, the tag at position r.1 of the data. */
    predicate MatchAt(r: (nat, nat)) {
      && InRange(r.0) && MatchesTag(machine[r.0]) && r.1 < |data|
      && Expected(machine[r.0], Fetch(r.0 + 1), data[r.1])
    }

    predicate IrregularAt(r: (nat, nat))
      requires MatchAt(r)
    {
      Irregular(machine[r.0], Fetch(r.0 + 1), data[r.1])
    }

    /** The addresses that an operation may lead to, RETURN apart, which goes back to a stacked one. */
    function Successors(pc: nat): set<nat>
      requires InRange(pc)
    {
      var op, next := machine[pc], pc + OpLength(machine[pc], beyond);
      if MatchJump(op) then {next, next % 256, Fetch(pc + 2)}
      else if 0x20 <= op <= 0x27 && EndsOf(op) then {next, Fetch(pc + 1)}
      else {next}
    }

    /** Addresses of operations that lead to each other only. */
    ghost predicate Code(pcs: set<nat>) {
      forall p :: p in pcs && InRange(p) ==> Successors(p) <= pcs
    }

    ghost predicate Within(pcs: set<nat>)
      reads this`pc, this`jsp, jumps
    {
      pc in pcs && jsp <= jumps.Length && forall i :: 0 <= i < jsp ==> jumps[i] in pcs
    }

    /** The next operation is a matching one that is not skipped. */
    predicate ToMatch()
      reads this`pc, this`dp, this`datalen, this`matched
    {
      InRange(pc) && MatchesTag(machine[pc]) && !PassedOver(machine[pc], Fetch(pc + 1), matched, Rest())
    }

    /** Where a matching operation at pc0 leads, for the tag at p in the data d. */
    predicate Landed(d: seq<byte>, p: nat, pc0: nat, csp0: nat, jsp0: nat)
      requires InRange(pc0) && Fits(d, p)
      reads this`pc, this`dp, this`csp, this`jsp, jumps
    {
      var op, next := machine[pc0], pc0 + OpLength(machine[pc0], beyond);
      && csp == (if Opens(op, Fetch(pc0 + 1)) then csp0 + 1 else csp0)
      && if MatchJump(op) then
        && HeaderOf(d, p).value.body == dp && pc == Fetch(pc0 + 2)
        && jsp == jsp0 + 1 <= jumps.Length && jumps[jsp0] == next % 256
      else
        && pc == next && jsp == jsp0
        && if Opens(op, Fetch(pc0 + 1)) then HeaderOf(d, p).value.body == dp else ValueEnd(d, p) == Ok(dp)
    }

    /** A matching operation whose header, for the tag at p in the data d, has been read; before that the open
        values were given by starts0, ends0. */
    method Proceed(op: byte, act: int, ghost p: nat, ghost d: seq<byte>, ghost starts0: seq<nat>,
                   ghost ends0: seq<Option<nat>>) returns (o: Outcome, ghost m: Move)
      requires Valid() && InRange(pc) && op == machine[pc] && MatchesTag(op) && Framed(p) && Fits(d, p)
      requires HeaderOf(d, p) == Ok(Header(dp, indefinite, Length())) && d[p] == data[p]
      requires cons <==> Opens(op, Fetch(pc + 1))
      requires !cons ==> d == data[..datalen] && ends == ends0 && consDp[..csp] == starts0
      requires cons ==> ends == ends0 + [if indefinite then None else Some(dp + len)] && consDp[..csp] == starts0 + [dp]
      requires !cons && !indefinite ==> dp + len <= datalen
      modifies this, jumps
      ensures o != Done
      ensures o == Continue <==>
        || (MatchJump(op) && old(jsp) < STACK)
        || (MatchLeaf(op) && (old(cons) || ValueEnd(d, p).Ok?) && (Acts(op) ==> act >= 0))
      ensures o == Continue ==> Valid() && old(dp) <= dp && Landed(d, p, old(pc), |ends0|, old(jsp))
      ensures o == Continue ==> old(jsp) <= STACK && jumps.Length == STACK && jumps[..old(jsp)] == old(jumps[..jsp])
      ensures o == Continue ==> Made(m, data, p, starts0, ends0, dp, consDp[..csp], ends)
      ensures m != Stay && m != Close && (m == Odd <==> Irregular(op, Fetch(old(pc) + 1), data[p]))
    {
      hide Nested, Enclosing, OpLength, MatchLeaf, MatchJump, HeaderAt, ElementAt;
      ghost var optag := Fetch(pc + 1);
      ghost var end := if indefinite then None else Some(dp + len);
      JumpNotAny(op);
      if data[p] != 0 { FramedHeader(p); }
      assert !cons ==> ValueEnd(d, p) == ContentsEnd();
      assert Irregular(op, optag, data[p]) || (data[p] != 0 && (MatchJump(op) ==> cons));
      hide Framed, Fits, ValueEnd, Opens, Irregular, ContentsEnd, Acts, MatchesTag;
      o := AfterMatch(op, act, p);
      m := if Irregular(op, optag, data[p]) then Odd else if cons then Open(end) else Leaf;
    }

    lemma LandedWithin(pcs: set<nat>, d: seq<byte>, p: nat, pc0: nat, csp0: nat, jsp0: nat, jumps0: seq<nat>)
      requires Code(pcs) && InRange(pc0) && pc0 in pcs && Fits(d, p) && Landed(d, p, pc0, csp0, jsp0)
      requires jsp0 <= jumps.Length && jumps[..jsp0] == jumps0 && forall j :: j in jumps0 ==> j in pcs
      ensures Within(pcs)
    {
      hide Code, HeaderOf, ValueEnd, Fits, OpLength, MatchJump, Opens;
      SuccessorsIn(pc0, pcs);
      forall i | 0 <= i < jsp0 ensures jumps[i] in pcs {
        assert jumps[..jsp0][i] in jumps0;
      }
    }

    lemma NothingMade(starts: seq<nat>, ends: seq<Option<nat>>)
      ensures Made(Stay, data, dp, starts, ends, dp, starts, ends)
    {}

    /** Which addresses follow. */
    lemma SuccessorsIn(p: nat, pcs: set<nat>)
      requires InRange(p) && Code(pcs) && p in pcs
      ensures p + OpLength(machine[p], beyond) in pcs
      ensures MatchJump(machine[p]) ==>
        Fetch(p + 2) in pcs && (p + OpLength(machine[p], beyond)) % 256 in pcs
      ensures !MatchJump(machine[p]) && 0x20 <= machine[p] <= 0x27 && EndsOf(machine[p]) ==> Fetch(p + 1) in pcs
    {
      assert Successors(p) <= pcs;
    }

    /** A matching operation. */
    method Match(op: byte, act: int, ghost pcs: set<nat>) returns (o: Outcome, ghost m: Move)
      requires Valid() && InRange(pc) && op == machine[pc] && MatchesTag(op)
      modifies this, consDp, consDatalen, consHdrlen, jumps
      ensures o != Done && (o == Continue ==> Valid() && old(dp) <= dp)
      ensures !old(ToMatch()) ==> o == Continue && m == Stay && pc == old(pc) + OpLength(op, beyond)
      ensures old(ToMatch()) ==>
        (o == Continue <==> Proceeds(op, Fetch(old(pc) + 1), data[..old(datalen)], old(dp), old(csp), old(jsp), act))
      ensures old(ToMatch()) && o == Continue ==> Landed(data[..old(datalen)], old(dp), old(pc), old(csp), old(jsp))
      ensures o == Continue ==> Made(m, data, old(dp), old(consDp[..csp]), old(ends), dp, consDp[..csp], ends)
      ensures o == Continue && m != Stay ==>
        old(dp) < dp && m != Close && MatchAt((old(pc), old(dp))) && (m == Odd <==> IrregularAt((old(pc), old(dp))))
      ensures o == Continue && Code(pcs) && old(Within(pcs)) ==> Within(pcs)
    {
      hide Nested, Enclosing, OpLength, JumpsOk, MatchLeaf, MatchJump, Framed, PassedOver, Made, ParseLength, Code;
      hide Irregular, Expected, ValueEnd, Opens;
      m := Stay;
      ghost var p, pc0, d, starts0, ends0 := dp, pc, data[..datalen], consDp[..csp], ends;
      var r := MatchTag(op);
      if r.Some? {
        if r == Some(Continue) {
          NothingMade(consDp[..csp], ends);
          if Code(pcs) && old(Within(pcs)) { SuccessorsIn(pc0, pcs); }
        }
        return r.value, m;
      }
      o, m := Proceed(op, act, p, d, starts0, ends0);
      if o == Continue && Code(pcs) && old(Within(pcs)) {
        LandedWithin(pcs, d, p, pc0, |ends0|, old(jsp), old(jumps[..jsp]));
      }
    }

    /** Any other operation. */
    method DoOther(op: byte, act: int, ghost pcs: set<nat>) returns (o: Outcome, ghost m: Move)
      requires Valid() && InRange(pc) && op == machine[pc] && !MatchesTag(op)
      modifies this
      ensures o == Continue ==> Valid() && old(dp) <= dp && (m == Stay || m == Close)
      ensures o == Continue ==> Made(m, data, old(dp), old(consDp[..csp]), old(ends), dp, consDp[..csp], ends)
      ensures o == Continue && Code(pcs) && old(Within(pcs)) ==> Within(pcs)
      ensures op == 0x28 ==> (o == Continue <==> old(jsp) > 0)
      ensures op == 0x28 && o == Continue ==> jsp == old(jsp) - 1 && pc == old(jumps[..])[jsp] && m == Stay
      ensures o == Done <==> op == 0x1d && old(jsp) == 0 && old(csp) == 0
      ensures o == Done ==> csp == 0 && jsp == 0 && datalen == |data| && dp == old(dp) && ends == old(ends) == []
    {
      hide Nested, OpLength, MatchLeaf, MatchJump, Code;
      m := Stay;
      if Code(pcs) && Within(pcs) {
        SuccessorsIn(pc, pcs);
        NoJump(op);
      }
      if 0x20 <= op <= 0x27 {
        ghost var closed;
        o, closed := End(op, act);
        m := if closed then Close else Stay;
      } else {
        o := OtherOp(op, act);
      }
    }

    lemma NoJump(op: byte)
      ensures MatchJump(op) ==> MatchesTag(op)
    {}

    /** One round of the machine, and what it makes of the data. `act` is what an action function returns,
        should one be called. */
    method NextOp(act: int, ghost pcs: set<nat>) returns (o: Outcome, ghost m: Move)
      requires Valid()
      modifies this, consDp, consDatalen, consHdrlen, jumps
      ensures o == Continue ==> Valid() && old(dp) <= dp
      ensures o == Continue ==> Made(m, data, old(dp), old(consDp[..csp]), old(ends), dp, consDp[..csp], ends)
      ensures o == Continue && m != Stay && m != Close ==>
        old(dp) < dp && MatchAt((old(pc), old(dp))) && (m == Odd <==> IrregularAt((old(pc), old(dp))))
      ensures o == Continue && Code(pcs) && old(Within(pcs)) ==> Within(pcs)
      ensures !InRange(old(pc)) ==> o == Failed(MachineOverrun)
      ensures old(ToMatch()) ==>
        (o == Continue <==>
         Proceeds(machine[old(pc)], Fetch(old(pc) + 1), data[..old(datalen)], old(dp), old(csp), old(jsp), act))
      ensures old(ToMatch()) && o == Continue ==> Landed(data[..old(datalen)], old(dp), old(pc), old(csp), old(jsp))
      ensures InRange(old(pc)) && MatchesTag(machine[old(pc)]) && !old(ToMatch()) ==>
        o == Continue && m == Stay && pc == old(pc) + OpLength(machine[old(pc)], beyond)
      ensures InRange(old(pc)) && machine[old(pc)] == 0x28 ==> (o == Continue <==> old(jsp) > 0)
      ensures InRange(old(pc)) && machine[old(pc)] == 0x28 && o == Continue ==>
        jsp == old(jsp) - 1 && pc == old(jumps[..])[jsp] && m == Stay
      ensures o == Done <==> InRange(old(pc)) && machine[old(pc)] == 0x1d && old(jsp) == 0 && old(csp) == 0
      ensures o == Done ==> csp == 0 && jsp == 0 && datalen == |data| && dp == old(dp) && ends == old(ends) == []
    {
      hide Nested, OpLength, JumpsOk, MatchLeaf, MatchJump, Proceeds, Made, Fits, HeaderOf, Landed, PassedOver;
      m := Stay;
      if pc >= |machine| {
        return Failed(MachineOverrun), m;
      }
      var op := machine[pc];
      if pc + OpLength(op, beyond) > |machine| {
        return Failed(MachineOverrun), m;
      }
      if MatchesTag(op) {
        o, m := Match(op, act, pcs);
      } else {
        o, m := DoOther(op, act, pcs);
      }
    }

    // ----- runs -----

    /** In the program `pcs` no operation matches any tag or a tag that is 0 but for its constructed bit, and none
        jumps into a value that is not constructed. */
    ghost predicate RegularProgram(pcs: set<nat>) {
      forall p :: p in pcs && InRange(p) && MatchesTag(machine[p]) ==>
        && !Any(machine[p]) && BareTag(Fetch(p + 1)) != 0
        && (MatchJump(machine[p]) ==> Constructed(Fetch(p + 1)))
    }

    lemma RegularMatch(pcs: set<nat>, r: (nat, nat))
      requires RegularProgram(pcs) && MatchAt(r) && r.0 in pcs
      ensures !IrregularAt(r)
    {}

    ghost predicate AllRegular(trace: seq<(nat, nat)>) {
      forall r :: r in trace ==> MatchAt(r) && !IrregularAt(r)
    }

    ghost predicate Rounds(trace: seq<(nat, nat)>, later: nat) {
      && (forall r :: r in trace ==> MatchAt(r) && r.1 < later)
      && forall i, j :: 0 <= i < j < |trace| ==> trace[i].1 < trace[j].1
    }

    /** Any number of rounds; `trace` lists those that matched a tag, with the address in the program and the
        position in the data. A decoder that ends well has read a list of whole BER data values if none of them was
        irregular, which a regular program rules out. */
    method Run(acts: seq<int>, ghost pcs: set<nat>) returns (o: Outcome, ghost trace: seq<(nat, nat)>)
      requires Valid() && dp == 0 && ends == []
      modifies this, consDp, consDatalen, consHdrlen, jumps
      ensures o == Continue ==> Valid()
      ensures o == Done ==> csp == 0 && jsp == 0 && datalen == |data|
      ensures Rounds(trace, |data|)
      ensures o == Done && AllRegular(trace) ==> WellFormed(data, dp)
      ensures Code(pcs) && old(Within(pcs)) && RegularProgram(pcs) ==> AllRegular(trace)
      ensures Code(pcs) && old(Within(pcs)) && RegularProgram(pcs) && o == Done ==> WellFormed(data, dp)
    {
      o, trace := Continue, [];
      ghost var heads: seq<nat>, done: seq<seq<Element>> := [], [[]];
      assert Parsed(data, heads, consDp[..csp], ends, done, dp);
      hide Nested, Enclosing, ArraysOk, JumpsOk, Parsed, Made, MatchAt, IrregularAt, Code, Within, RegularProgram;
      hide Landed, Proceeds, ToMatch, InRange, MatchesTag, Fits;
      for i := 0 to |acts|
        invariant o == Continue && Valid() && Rounds(trace, dp)
        invariant AllRegular(trace) ==> Parsed(data, heads, consDp[..csp], ends, done, dp)
        invariant Code(pcs) && old(Within(pcs)) ==> Within(pcs)
        invariant Code(pcs) && old(Within(pcs)) && RegularProgram(pcs) ==> AllRegular(trace)
      {
        ghost var pc0, dp0, starts0, ends0, m := pc, dp, consDp[..csp], ends, Stay;
        ghost var before := trace;
        if Code(pcs) && Within(pcs) { AddressIn(pcs); }
        o, m := NextOp(acts[i], pcs);
        if o != Continue {
          if o == Done && AllRegular(trace) { ParsedToTheEnd(data, heads, starts0, ends0, done, dp); }
          return;
        }
        if m != Stay && m != Close {
          trace := trace + [(pc0, dp0)];
          OneMoreRound(before, dp0, (pc0, dp0), dp);
          if Code(pcs) && old(Within(pcs)) && RegularProgram(pcs) { RegularMatch(pcs, (pc0, dp0)); }
        }
        if AllRegular(trace) {
          MovesRegularly(before, trace, (pc0, dp0), m);
          heads, done := ParsedMove(m, data, heads, starts0, ends0, done, dp0, consDp[..csp], ends, dp);
        }
      }
    }

    lemma OneMoreRound(trace: seq<(nat, nat)>, before: nat, r: (nat, nat), later: nat)
      requires Rounds(trace, before) && MatchAt(r) && r.1 == before < later
      ensures Rounds(trace + [r], later)
      ensures AllRegular(trace + [r]) <==> AllRegular(trace) && !IrregularAt(r)
    {
      var more := trace + [r];
      assert r in more && forall q :: q in trace ==> q in more;
      assert forall q :: q in more ==> q in trace || q == r;
    }

    lemma MovesRegularly(before: seq<(nat, nat)>, trace: seq<(nat, nat)>, r: (nat, nat), m: Move)
      requires AllRegular(trace)
      requires if m == Stay || m == Close then trace == before else trace == before + [r] && MatchAt(r)
      requires MatchAt(r) && m == Odd ==> IrregularAt(r)
      ensures AllRegular(before) && m != Odd
    {
      if m != Stay && m != Close {
        assert r in trace && forall q :: q in before ==> q in trace;
      }
    }

    lemma AddressIn(pcs: set<nat>)
      requires Within(pcs)
      ensures pc in pcs
    {}
  }

  // ----- irregular runs -----

  /** ASN1_OP_MATCH_ANY, ASN1_OP_COMPLETE accept the octets of end-of-contents as a value. */
  method AcceptsEndOfContents(behind: nat -> byte, beyond: byte -> byte) returns (d: Decoder, o: Outcome)
    ensures d.machine == [0x08, 0x1d] && d.data == [0, 0]
    ensures o == Done && d.dp == 2 && !WellFormed(d.data, d.dp)
  {
    d := new Decoder([0x08, 0x1d], [0, 0], behind, beyond);
    ghost var m;
    assert d.Rest() == [0, 0] && d.data[..2] == [0, 0];
    assert HeaderOf([0, 0], 0) == Ok(Header(2, false, 0));
    o, m := d.NextOp(0, {});
    o, m := d.NextOp(0, {});
    if WellFormed(d.data, d.dp) {
      var q := FirstElement(d.data, d.dp);
      ElementHead(d.data, 0, q);
    }
  }

  /** ASN1_OP_MATCH_JUMP on a primitive tag, to ASN1_OP_RETURN, and ASN1_OP_COMPLETE accept a header without the
      value. */
  method AcceptsHeader(behind: nat -> byte, beyond: byte -> byte) returns (d: Decoder, o: Outcome)
    ensures d.machine == [0x04, 0x02, 0x04, 0x1d, 0x28] && d.data == [2, 1, 7]
    ensures o == Done && d.dp == 2 && !WellFormed(d.data, d.dp)
  {
    d := new Decoder([0x04, 0x02, 0x04, 0x1d, 0x28], [2, 1, 7], behind, beyond);
    ghost var m;
    JumpProceeds();
    hide HeaderOf, Proceeds, Made, WellFormed, PassedOver, Opens, Fits, Expected, ValueEnd, MatchLeaf, Nested;
    assert d.Rest() == d.data[..3] == [2, 1, 7];
    assert d.ToMatch();
    o, m := d.NextOp(0, {});
    assert d.pc == 4 && d.dp == 2 && d.csp == 0 && d.jsp == 1 && d.jumps[0] == 3;
    o, m := d.NextOp(0, {});
    assert d.pc == 3 && d.dp == 2 && d.csp == 0 && d.jsp == 0;
    o, m := d.NextOp(0, {});
    HeaderOnly();
  }

  lemma JumpProceeds()
    ensures Fits([2, 1, 7], 0) && HeaderOf([2, 1, 7], 0) == Ok(Header(2, false, 1))
    ensures Proceeds(4, 2, [2, 1, 7], 0, 0, 0, 0) && !Opens(4, 2) && !PassedOver(4, 2, false, [2, 1, 7])
  {}

  lemma HeaderOnly()
    ensures !WellFormed([2, 1, 7], 2)
  {
    if WellFormed([2, 1, 7], 2) {
      var q := FirstElement([2, 1, 7], 2);
      FirstLength([2, 1, 7], q);
    }
  }
}
