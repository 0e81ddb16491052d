/** String values in .config: sym_escape_string_value (kconf/symbol.c) writes them, conf_set_sym_val
    (kconf/confdata.c) takes the escapes out again in the buffer of the line.
 */
module KconfigEscape {

  const NUL := '\0'

  predicate Special(c: char) { c == '"' || c == '\\' }

  function Escaped(s: string): string {
    if s == [] then []
    else (if Special(s[0]) then ['\\', s[0]] else [s[0]]) + Escaped(s[1..])
  }

  function Quoted(s: string): string { ['"'] + Escaped(s) + ['"'] }

  /** What conf_set_sym_val does with the text after the equals sign for a string symbol: it sets the
      symbol, or refuses the text for want of a closing quote, or ignores it for want of an opening one.
   */
  datatype Outcome = Set(value: string) | Invalid | Ignored

  /** The unescaping, with what is already unescaped. */
  function Unescape(done: string, rest: string): Outcome
    decreases |rest|
  {
    if rest == [] then Invalid
    else if rest[0] == '"' then Set(done)
    else if rest[0] == '\\' then
      if |rest| == 1 then Invalid else Unescape(done + [rest[1]], rest[2..])
    else Unescape(done + [rest[0]], rest[1..])
  }

  function ReadValue(text: string): Outcome {
    if text == [] || text[0] != '"' then Ignored else Unescape([], text[1..])
  }

  // ----- the round trip -----

  /** Unescaping stops at the closing quote, whatever follows it. */
  lemma {:induction false} UnescapeEscaped(done: string, s: string, after: string)
    ensures Unescape(done, Escaped(s) + ['"'] + after) == Set(done + s)
    decreases |s|
  {
    var rest := Escaped(s) + ['"'] + after;
    if s == [] {
      assert done + s == done;
    } else {
      var k := if Special(s[0]) then 2 else 1;
      assert rest[k..] == Escaped(s[1..]) + ['"'] + after;
      UnescapeEscaped(done + [s[0]], s[1..], after);
      assert done + [s[0]] + s[1..] == done + s;
    }
  }

  lemma {:induction false} UnescapeUnclosed(done: string, s: string)
    ensures Unescape(done, Escaped(s)) == Invalid
    decreases |s|
  {
    if s != [] {
      var k := if Special(s[0]) then 2 else 1;
      assert Escaped(s)[k..] == Escaped(s[1..]);
      UnescapeUnclosed(done + [s[0]], s[1..]);
    }
  }

  lemma QuoteRoundTrip(s: string)
    ensures ReadValue(Quoted(s)) == Set(s)
  {
    UnescapeEscaped([], s, []);
    assert Quoted(s)[1..] == Escaped(s) + ['"'] + [];
    assert [] + s == s;
  }

  /** Different strings are written differently. */
  lemma QuotedInjective(s: string, t: string)
    requires Quoted(s) == Quoted(t)
    ensures s == t
  {
    QuoteRoundTrip(s);
    QuoteRoundTrip(t);
  }

  // ----- a line of the file -----

  function IndexOf(s: string, c: char): (k: nat)
    ensures k <= |s| && c !in s[..k] && (k < |s| ==> s[k] == c)
  {
    if s == [] then 0
    else if s[0] == c then 0
    else
      var k := IndexOf(s[1..], c);
      assert s[..k + 1] == [s[0]] + s[1..][..k];
      k + 1
  }

  lemma {:induction false} IndexIn(s: string, t: string, c: char)
    requires c !in s
    ensures IndexOf(s + [c] + t, c) == |s|
  {
    if s != [] {
      assert (s + [c] + t)[1..] == s[1..] + [c] + t;
      IndexIn(s[1..], t, c);
    }
  }

  const CONFIG_ := "CONFIG_"

  function WriteLine(name: string, s: string): string {
    CONFIG_ + name + ['='] + Quoted(s) + ['\n']
  }

  /** A carriage return in front of the line end goes with it. */
  function Stripped(text: string): string {
    if text != [] && text[|text| - 1] == '\r' then text[..|text| - 1] else text
  }

  /** The value's text on the first line of `file`: behind the first equals sign, without the line's end. */
  function ValueText(file: string): string
    requires |file| >= |CONFIG_|
  {
    var line := file[..IndexOf(file, '\n')];
    var named := if |line| >= |CONFIG_| then line[|CONFIG_|..] else [];
    var k := IndexOf(named, '=');
    var text := if k < |named| then named[k + 1..] else [];
    Stripped(text)
  }

  lemma {:induction false} EscapedKeepsOut(s: string, c: char)
    requires c !in s && !Special(c)
    ensures c !in Escaped(s)
  {
    if s != [] { EscapedKeepsOut(s[1..], c); }
  }

  lemma {:induction false} EscapedJoins(s: string, t: string)
    ensures Escaped(s + t) == Escaped(s) + Escaped(t)
  {
    if s == [] {
      assert s + t == t;
    } else {
      assert (s + t)[1..] == s[1..] + t;
      EscapedJoins(s[1..], t);
    }
  }

  /** What the reader cuts out of a written line whose value reads `v` up to the first line end. */
  lemma CutOut(name: string, v: string, after: string)
    requires '=' !in name && '\n' !in name && '\n' !in v
    ensures ValueText(CONFIG_ + name + ['='] + v + ['\n'] + after) == Stripped(v)
  {
    var file := CONFIG_ + name + ['='] + v + ['\n'] + after;
    IndexIn(CONFIG_ + name + ['='] + v, after, '\n');
    var line := file[..IndexOf(file, '\n')];
    assert line == CONFIG_ + name + ['='] + v;
    assert line[|CONFIG_|..] == name + ['='] + v;
    IndexIn(name, v, '=');
    assert line[|CONFIG_|..][|name| + 1..] == v;
  }

  /** Without the closing quote the text is refused, also when a carriage return goes with the line end. */
  lemma CutTextInvalid(u: string)
    ensures ReadValue(Stripped(['"'] + Escaped(u))) == Invalid
  {
    var text := ['"'] + Escaped(u);
    Unclosed(u);
    hide Unescape, ReadValue, Escaped;
    if text[|text| - 1] == '\r' {
      LastEscaped(u);
      var t := u[..|u| - 1];
      assert text[..|text| - 1] == ['"'] + Escaped(t);
      Unclosed(t);
    }
  }

  lemma Unclosed(u: string)
    ensures ReadValue(['"'] + Escaped(u)) == Invalid
  {
    UnescapeUnclosed([], u);
    assert (['"'] + Escaped(u))[1..] == Escaped(u);
  }

  lemma LastEscaped(u: string)
    requires Escaped(u) != []
    ensures u != [] && u[|u| - 1] == Escaped(u)[|Escaped(u)| - 1]
    ensures !Special(u[|u| - 1]) ==> Escaped(u) == Escaped(u[..|u| - 1]) + [u[|u| - 1]]
  {
    assert u == u[..|u| - 1] + [u[|u| - 1]];
    assert Escaped([u[|u| - 1]]) == if Special(u[|u| - 1]) then ['\\', u[|u| - 1]] else [u[|u| - 1]] by {
      assert [u[|u| - 1]][1..] == [];
    }
    hide Escaped;
    EscapedJoins(u[..|u| - 1], [u[|u| - 1]]);
  }

  lemma ReadBackWhole(name: string, s: string)
    requires '=' !in name && '\n' !in name && '\n' !in s
    ensures ReadValue(ValueText(WriteLine(name, s))) == Set(s)
  {
    hide Unescape, Escaped, ValueText, ReadValue;
    EscapedKeepsOut(s, '\n');
    CutOut(name, Quoted(s), []);
    assert WriteLine(name, s) == CONFIG_ + name + ['='] + Quoted(s) + ['\n'] + [];
    QuoteRoundTrip(s);
  }

  lemma EscapedSplits(s: string) returns (u: string, v: string)
    requires '\n' in s
    ensures Escaped(s) == Escaped(u) + ['\n'] + Escaped(v) && '\n' !in u
  {
    var k := IndexOf(s, '\n');
    u, v := s[..k], s[k + 1..];
    EscapedFirst('\n', v);
    hide Escaped, IndexOf;
    EscapedJoins(u, ['\n'] + v);
    assert s == u + (['\n'] + v);
  }

  lemma EscapedFirst(c: char, v: string)
    requires !Special(c)
    ensures Escaped([c] + v) == [c] + Escaped(v)
  {
    assert ([c] + v)[1..] == v;
  }

  lemma ReadBackCut(name: string, s: string)
    requires '=' !in name && '\n' !in name && '\n' in s
    ensures ReadValue(ValueText(WriteLine(name, s))) == Invalid
  {
    hide Unescape, Escaped, ValueText, ReadValue, Stripped, IndexOf;
    var u, v := EscapedSplits(s);
    EscapedKeepsOut(u, '\n');
    var text, after := ['"'] + Escaped(u), Escaped(v) + ['"'] + ['\n'];
    CutOut(name, text, after);
    assert Quoted(s) + ['\n'] == text + ['\n'] + after;
    assert WriteLine(name, s) == CONFIG_ + name + ['='] + text + ['\n'] + after;
    CutTextInvalid(u);
  }

  /** A written string is read back if and only if it has no line end in it. */
  lemma WrittenIsReadBack(name: string, s: string)
    requires '=' !in name && '\n' !in name
    ensures ReadValue(ValueText(WriteLine(name, s))) == Set(s) <==> '\n' !in s
  {
    if '\n' !in s { ReadBackWhole(name, s); } else { ReadBackCut(name, s); }
  }

  // ----- C strings in buffers -----

  /** strcspn with the two special characters, from position p of a string. */
  method SpanPlain(s: string, p: nat) returns (l: nat)
    requires p <= |s|
    ensures p + l <= |s| && (forall k :: p <= k < p + l ==> !Special(s[k]))
    ensures p + l < |s| ==> Special(s[p + l])
  {
    l := 0;
    while p + l < |s| && !Special(s[p + l])
      invariant p + l <= |s| && forall k :: p <= k < p + l ==> !Special(s[k])
    {
      l := l + 1;
    }
  }

  lemma {:induction false} EscapedPlain(s: string, p: nat, l: nat)
    requires p + l <= |s| && forall k :: p <= k < p + l ==> !Special(s[k])
    ensures Escaped(s[..p + l]) == Escaped(s[..p]) + s[p..p + l]
    decreases l
  {
    if l > 0 {
      EscapedPlain(s, p, l - 1);
      EscapedNext(s, p + l - 1);
      assert s[p..p + l] == s[p..p + l - 1] + [s[p + l - 1]];
    }
  }

  lemma EscapedNext(s: string, p: nat)
    requires p < |s|
    ensures Escaped(s[..p + 1]) == Escaped(s[..p]) + if Special(s[p]) then ['\\', s[p]] else [s[p]]
  {
    assert s[..p + 1] == s[..p] + [s[p]];
    EscapedJoins(s[..p], [s[p]]);
    assert [s[p]][1..] == [];
  }

  /** The buffer holds this string and its NUL. */
  ghost predicate Holds(res: array<char>, text: string)
    reads res
  {
    |text| < res.Length && res[..|text|] == text && res[|text|] == NUL && NUL !in text
  }

  /** strncat: `part` goes behind the string in the buffer. */
  method Append(res: array<char>, ghost text: string, part: string)
    requires Holds(res, text) && NUL !in part && |text| + |part| < res.Length
    modifies res
    ensures Holds(res, text + part)
  {
    assert forall k :: 0 <= k < |text| ==> res[k] == text[k] && text[k] in text;
    var e := 0;
    while res[e] != NUL
      invariant e <= |text|
      decreases |text| - e
    {
      e := e + 1;
    }
    for k := 0 to |part|
      invariant res[..e] == text
      invariant res[e..e + k] == part[..k]
    {
      res[e + k] := part[k];
    }
    res[e + |part|] := NUL;
    assert res[e..e + |part|] == part[..|part|] == part;
    assert res[..e + |part|] == res[..e] + res[e..e + |part|] == text + part;
    assert forall c :: c in text + part ==> c in text || c in part;
  }

  /** The size that the first pass of sym_escape_string_value counts. */
  method EscapedSize(input: string) returns (reslen: nat)
    ensures reslen == |Quoted(input)| + 1
  {
    EscapedEmpty();
    hide Escaped, Special;
    reslen := |input| + 2 + 1;
    var p := 0;
    while true
      invariant 0 <= p <= |input| && reslen == |Escaped(input[..p])| + |input| - p + 3
      decreases |input| - p
    {
      var l := SpanPlain(input, p);
      EscapedPlain(input, p, l);
      p := p + l;
      if p == |input| {
        break;
      }
      EscapedNext(input, p);
      reslen := reslen + 1;
      p := p + 1;
    }
    assert input[..|input|] == input;
  }

  /** What is written when p characters of the input are. */
  function Written(input: string, p: nat): string
    requires p <= |input|
  {
    ['"'] + Escaped(input[..p])
  }

  /** The plain characters from p on. */
  method AppendPlain(res: array<char>, input: string, p: nat) returns (q: nat)
    requires p <= |input| && NUL !in input && res.Length == |Quoted(input)| + 1 && Holds(res, Written(input, p))
    modifies res
    ensures p <= q <= |input| && Holds(res, Written(input, q)) && (q < |input| ==> Special(input[q]))
  {
    hide Escaped, Special, Holds;
    var l := SpanPlain(input, p);
    EscapedPlain(input, p, l);
    Shorter(input, p + l);
    assert Written(input, p + l) == Written(input, p) + input[p..p + l];
    Append(res, Written(input, p), input[p..p + l]);
    q := p + l;
  }

  /** A special character, with its backslash. */
  method AppendEscaped(res: array<char>, input: string, p: nat)
    requires p < |input| && Special(input[p]) && NUL !in input
    requires res.Length == |Quoted(input)| + 1 && Holds(res, Written(input, p))
    modifies res
    ensures Holds(res, Written(input, p + 1))
  {
    hide Escaped, Special, Holds;
    ghost var text := Written(input, p);
    EscapedNext(input, p);
    Shorter(input, p + 1);
    assert Written(input, p + 1) == text + ['\\'] + [input[p]];
    Append(res, text, ['\\']);
    Append(res, text + ['\\'], [input[p]]);
  }

  /** sym_escape_string_value: one pass for the size, one to fill. The buffer is exactly as long as the
      quoted string and its NUL.
   */
  method EscapeStringValue(input: string) returns (res: array<char>)
    requires NUL !in input
    ensures fresh(res) && Holds(res, Quoted(input)) && res.Length == |Quoted(input)| + 1
  {
    var reslen := EscapedSize(input);
    EscapedEmpty();
    res := new char[reslen];
    res[0] := NUL;
    assert res[..0] == [] && Holds(res, []);
    hide Escaped, Special, Holds;
    Append(res, [], ['"']);
    assert Written(input, 0) == [] + ['"'];
    var p := 0;
    while true
      invariant 0 <= p <= |input| && res.Length == reslen && fresh(res)
      invariant Holds(res, Written(input, p))
      decreases |input| - p
    {
      p := AppendPlain(res, input, p);
      if p == |input| {
        break;
      }
      AppendEscaped(res, input, p);
      p := p + 1;
    }
    assert input[..|input|] == input;
    Append(res, Written(input, |input|), ['"']);
  }

  lemma EscapedEmpty()
    ensures Escaped([]) == [] && forall s: string :: s[..0] == []
  {}

  /** No prefix needs more room. */
  lemma Shorter(s: string, p: nat)
    requires p <= |s|
    ensures |Escaped(s[..p])| <= |Escaped(s)|
  {
    assert s == s[..p] + s[p..];
    EscapedJoins(s[..p], s[p..]);
  }

  /** strpbrk with the two special characters: from p on, the first one before the NUL. */
  method FindSpecial(line: array<char>, p: nat, ghost n: nat) returns (q: nat, found: bool)
    requires p <= n < line.Length && line[n] == NUL
    requires forall k :: p <= k < n ==> line[k] != NUL
    ensures p <= q <= n && (found <==> q < n)
    ensures (forall k :: p <= k < q ==> !Special(line[k])) && (found ==> Special(line[q]))
  {
    q := p;
    while line[q] != NUL && !Special(line[q])
      invariant p <= q <= n
      invariant forall k :: p <= k < q ==> !Special(line[k])
      decreases n - q
    {
      q := q + 1;
    }
    found := line[q] != NUL;
  }

  /** The plain characters in front of a special one go through. */
  lemma {:induction false} UnescapePlain(done: string, part: string, rest: string)
    requires forall k :: 0 <= k < |part| ==> !Special(part[k])
    ensures Unescape(done, part + rest) == Unescape(done + part, rest)
    decreases |part|
  {
    if part == [] {
      assert part + rest == rest && done + part == done;
    } else {
      assert (part + rest)[1..] == part[1..] + rest;
      UnescapePlain(done + [part[0]], part[1..], rest);
      assert done + [part[0]] + part[1..] == done + part;
    }
  }

  /** memmove(p2, p2 + 1, strlen(p2)): the rest of the line, with its NUL, over the character at q. */
  method MoveDown(line: array<char>, q: nat, n: nat)
    requires q < n < line.Length
    modifies line
    ensures line[..] == Moved(old(line[..]), q, n)
  {
    forall k | q <= k < n {
      line[k] := line[k + 1];
    }
    assert line[..] == Moved(old(line[..]), q, n);
  }

  function Moved(b: seq<char>, q: nat, n: nat): seq<char>
    requires q < n < |b|
  {
    b[..q] + b[q + 1..n + 1] + b[n..]
  }

  lemma MovedAt(b: seq<char>, q: nat, n: nat, k: nat)
    requires q < n < |b| && k < |b|
    ensures |Moved(b, q, n)| == |b| && Moved(b, q, n)[k] == if k < q then b[k] else if k < n then b[k + 1] else b[k]
  {}

  /** What stands in front of the character that goes. */
  lemma MovedFront(b: seq<char>, q: nat, n: nat, i: nat, j: nat)
    requires i <= j <= q < n < |b|
    ensures |Moved(b, q, n)| == |b| && Moved(b, q, n)[i..j] == b[i..j]
  {
    assert Moved(b, q, n)[..q] == b[..q];
    assert Moved(b, q, n)[i..j] == Moved(b, q, n)[..q][i..j];
  }

  /** What stands behind it moves down. */
  lemma MovedBack(b: seq<char>, q: nat, n: nat, i: nat, j: nat)
    requires q <= i <= j <= n < |b| && q < n
    ensures |Moved(b, q, n)| == |b| && Moved(b, q, n)[i..j] == b[i + 1..j + 1]
  {
    forall k | i <= k < j ensures Moved(b, q, n)[k] == b[k + 1] { MovedAt(b, q, n, k); }
  }

  lemma MovedRest(b: seq<char>, q: nat, n: nat, i: nat)
    requires q < n <= i <= |b| && n < |b|
    ensures |Moved(b, q, n)| == |b| && Moved(b, q, n)[i..] == b[i..]
  {}

  /** One turn at a special character, on what is unescaped and what is left. */
  lemma UnescapeSpecial(done: string, rest: string)
    requires rest != [] ==> Special(rest[0])
    ensures Unescape(done, rest) ==
      if |rest| == 0 then Invalid
      else if rest[0] == '"' then Set(done)
      else if |rest| == 1 then Invalid
      else Unescape(done + [rest[1]], rest[2..])
  {}

  lemma SkipPlain(done: string, rest: string, l: nat)
    requires l <= |rest| && forall k :: 0 <= k < l ==> !Special(rest[k])
    ensures Unescape(done, rest) == Unescape(done + rest[..l], rest[l..])
  {
    UnescapePlain(done, rest[..l], rest[l..]);
    assert rest[..l] + rest[l..] == rest;
  }

  /** The buffer `b` while the text behind p0 of `before` is unescaped: up to p2 it is done, the string ends
      at n. When a backslash was last, p2 has passed the NUL, and stands on the old one.
   */
  predicate Progress(b: seq<char>, before: seq<char>, p0: nat, p2: nat, n: nat, n0: nat) {
    && p0 < p2 <= n + 1 && n <= n0 < |b| == |before|
    && b[n] == NUL && b[n0] == NUL && (p2 == n + 1 ==> n < n0 && b[p2] == NUL)
    && (forall k :: p0 < k < n ==> b[k] != NUL)
    && b[..p0] == before[..p0] && b[n0..] == before[n0..]
    && Unescape([], before[p0 + 1..n0]) == if p2 <= n then Unescape(b[p0 + 1..p2], b[p2..n]) else Invalid
  }

  predicate Plain(b: seq<char>, p: nat, q: nat) {
    q <= |b| && forall k :: p <= k < q ==> !Special(b[k])
  }

  /** At the next special character, or at the end of the string. */
  lemma AtSpecial(b: seq<char>, before: seq<char>, p0: nat, p2: nat, q: nat, n: nat, n0: nat)
    requires Progress(b, before, p0, p2, n, n0) && p2 <= q <= n && Plain(b, p2, q) && (q < n ==> Special(b[q]))
    ensures Unescape([], before[p0 + 1..n0]) ==
      if q == n then Invalid
      else if b[q] == '"' then Set(b[p0 + 1..q])
      else if q + 1 == n then Invalid
      else Unescape(b[p0 + 1..q] + [b[q + 1]], b[q + 2..n])
  {
    var done, rest := b[p0 + 1..p2], b[p2..n];
    SkipPlain(done, rest, q - p2);
    assert done + rest[..q - p2] == b[p0 + 1..q] && rest[q - p2..] == b[q..n];
    hide Unescape;
    UnescapeSpecial(b[p0 + 1..q], b[q..n]);
    if q + 2 <= n { assert b[q..n][2..] == b[q + 2..n]; }
  }

  /** The character behind a backslash takes its place in the text that is done. */
  lemma MovedText(b: seq<char>, p0: nat, q: nat, n: nat)
    requires p0 < q && q + 1 < n < |b|
    ensures |Moved(b, q, n)| == |b|
    ensures Moved(b, q, n)[p0 + 1..q + 1] == b[p0 + 1..q] + [b[q + 1]]
    ensures Moved(b, q, n)[q + 1..n - 1] == b[q + 2..n]
  {
    var b' := Moved(b, q, n);
    MovedFront(b, q, n, p0 + 1, q);
    MovedBack(b, q, n, q + 1, n - 1);
    MovedAt(b, q, n, q);
    hide Moved;
    assert b'[p0 + 1..q + 1] == b'[p0 + 1..q] + [b'[q]];
  }

  /** The line keeps its shape. */
  lemma MovedShape(b: seq<char>, before: seq<char>, p0: nat, p2: nat, q: nat, n: nat, n0: nat)
    requires Progress(b, before, p0, p2, n, n0) && p2 <= q < n
    ensures var b' := Moved(b, q, n);
      && |b'| == |b| && b'[n - 1] == NUL && b'[n0] == NUL && (q + 1 == n ==> b'[q + 1] == NUL)
      && (forall k :: p0 < k < n - 1 ==> b'[k] != NUL)
      && b'[..p0] == before[..p0] && b'[n0..] == before[n0..]
  {
    MovedAt(b, q, n, n - 1);
    MovedAt(b, q, n, n0);
    MovedFront(b, q, n, 0, p0);
    MovedRest(b, q, n, n0);
    var b' := Moved(b, q, n);
    assert b'[0..p0] == b'[..p0] && b[0..p0] == b[..p0];
    if q + 1 == n { MovedAt(b, q, n, n); }
    forall k | p0 < k < n - 1 ensures b'[k] != NUL { MovedAt(b, q, n, k); }
  }

  /** A backslash goes, and the character behind it is done. */
  lemma AtBackslash(b: seq<char>, before: seq<char>, p0: nat, p2: nat, q: nat, n: nat, n0: nat)
    requires Progress(b, before, p0, p2, n, n0) && p2 <= q < n && Plain(b, p2, q) && b[q] == '\\'
    ensures Progress(Moved(b, q, n), before, p0, q + 1, n - 1, n0)
  {
    AtSpecial(b, before, p0, p2, q, n, n0);
    MovedShape(b, before, p0, p2, q, n, n0);
    if q + 1 < n { MovedText(b, p0, q, n); }
    hide Unescape, Moved;
  }

  /** conf_set_sym_val for a string symbol: the text behind the opening quote loses its backslashes in
      place, each by moving the rest of the line down, up to the closing quote.
   */
  method SetStringValue(line: array<char>, p0: nat, n0: nat) returns (r: Outcome)
    requires p0 <= n0 < line.Length && line[n0] == NUL
    requires forall k :: p0 <= k < n0 ==> line[k] != NUL
    modifies line
    ensures r == ReadValue(old(line[p0..n0]))
    ensures line[..p0] == old(line[..p0]) && line[n0..] == old(line[n0..])
  {
    ghost var before := line[..];
    assert before[p0..n0] == line[p0..n0];
    if line[p0] != '"' {
      return Ignored;
    }
    assert before[p0..n0][1..] == before[p0 + 1..n0];
    assert before[p0 + 1..p0 + 1] == [];
    hide Unescape;
    var p := p0 + 1;
    var p2: nat, n: nat := p, n0;
    while true
      invariant Progress(line[..], before, p0, p2, n, n0)
      decreases n - p2
    {
      ghost var b, from := line[..], p2;
      var q, found := FindSpecial(line, p2, if p2 <= n then n else p2);
      if p2 <= n { AtSpecial(b, before, p0, p2, q, n, n0); }
      if !found {
        return Invalid;
      }
      p2 := q;
      if line[p2] == '"' {
        r := Set(line[p..p2]);
        line[p2] := NUL;
        return;
      }
      AtBackslash(b, before, p0, from, q, n, n0);
      MoveDown(line, p2, n);
      n := n - 1;
      p2 := p2 + 1;
    }
  }
}
