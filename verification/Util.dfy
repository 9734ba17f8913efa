/**
Two helpers of the shared code: writing a list of buffers to a file however
little each system call takes, and quoting a byte string as JSON into a buffer
that may be too small.
*/
module Util {
  import opened Text
  import opened Wrappers

  type Octet = c: char | c as int < 0x100 witness 'x'

  type Octets = seq<Octet>

  // Writing a list of buffers

  function Concat(iov: seq<Octets>): Octets {
    if iov == [] then [] else iov[0] + Concat(iov[1..])
  }

  // A file after writing `b` at `offset`; a gap is filled with zeros.
  function WriteAt(data: Octets, offset: nat, b: Octets): Octets {
    if b == [] then data
    else
      Overwritten(Padded(data, offset), offset, b)
  }

  function Padded(data: Octets, offset: nat): (r: Octets)
    ensures |r| >= offset && (offset <= |data| ==> r == data)
  {
    data + seq(if offset > |data| then offset - |data| else 0, _ => NUL)
  }

  function Overwritten(data: Octets, offset: nat, b: Octets): (r: Octets)
    requires offset <= |data|
    ensures |r| >= offset + |b|
  {
    data[..offset] + b + if offset + |b| <= |data| then data[offset + |b|..] else []
  }

  lemma OverwrittenTwice(data: Octets, offset: nat, a: Octets, b: Octets)
    requires offset <= |data|
    ensures Overwritten(Overwritten(data, offset, a), offset + |a|, b) == Overwritten(data, offset, a + b)
  {
    var once := Overwritten(data, offset, a);
    assert once[..offset + |a|] == data[..offset] + a;
  }

  lemma WrittenTwice(data: Octets, offset: nat, a: Octets, b: Octets)
    ensures WriteAt(WriteAt(data, offset, a), offset + |a|, b) == WriteAt(data, offset, a + b)
  {
    hide Padded, Overwritten;
    if a == [] {
      assert a + b == b;
    } else if b == [] {
      assert a + b == a;
    } else {
      OverwrittenTwice(Padded(data, offset), offset, a, b);
    }
  }

  // What is written is at its place, in front of it stays what was there or zeros, and
  // so does what lies behind it.
  lemma BytesWritten(data: Octets, offset: nat, b: Octets)
    ensures var r := WriteAt(data, offset, b);
            && |r| == (if b != [] && offset + |b| > |data| then offset + |b| else |data|)
            && forall k :: 0 <= k < |r| ==>
                 r[k] == if offset <= k < offset + |b| then b[k - offset] else if k < |data| then data[k] else '\0'
  {
  }

  lemma WriteNothing(data: Octets, offset: nat)
    ensures WriteAt(data, offset, []) == data
  {
  }

  lemma NothingLeft(iov: seq<Octets>)
    ensures iov == [] ==> Concat(iov) == []
  {
  }

  class File {
    var data: Octets
    // How often a write has failed or taken nothing.
    ghost var refusals: nat

    // `pwritev`, retried while interrupted. It takes as much as it likes.
    method Pwritev(iov: seq<Octets>, offset: nat) returns (n: int)
      modifies this
      ensures n <= |Concat(iov)|
      ensures data == if n > 0 then WriteAt(old(data), offset, Concat(iov)[..n]) else old(data)
      ensures refusals == old(refusals) + if n > 0 then 0 else 1
    {
      n := *;
      if n <= 0 || n > |Concat(iov)| {
        n := if n < 0 then -1 else 0;
        refusals := refusals + 1;
      } else {
        data := WriteAt(data, offset, Concat(iov)[..n]);
      }
    }
  }

  /** `pwritev_all`: everything, or what was written before the first refusal. */
  method PwritevAll(file: File, iov: array<Octets>, offset: nat) returns (total: nat)
    modifies file
    ensures total <= |Concat(iov[..])|
    ensures file.data == WriteAt(old(file.data), offset, Concat(iov[..])[..total])
    ensures total < |Concat(iov[..])| ==> file.refusals > old(file.refusals)
    ensures |file.data| == if total > 0 && offset + total > |old(file.data)| then offset + total else |old(file.data)|
    ensures forall k :: 0 <= k < |file.data| ==>
              file.data[k] == if offset <= k < offset + total then Concat(iov[..])[k - offset]
                              else if k < |old(file.data)| then old(file.data)[k] else '\0'
  {
    hide WriteAt, Concat;
    WriteNothing(file.data, offset);
    var copy := new Octets[iov.Length](i requires 0 <= i < iov.Length reads iov => iov[i]);
    assert copy[..] == iov[..];
    ghost var whole := Concat(iov[..]);
    var first := 0;
    total := 0;
    assert whole[..0] == [];
    assert copy[first..] == iov[..];
    while first < copy.Length
      invariant first <= copy.Length && total <= |whole|
      invariant Concat(copy[first..]) == whole[total..]
      invariant file.data == WriteAt(old(file.data), offset, whole[..total])
      invariant file.refusals == old(file.refusals)
      decreases |whole| - total
    {
      var n := file.Pwritev(copy[first..], offset + total);
      if n <= 0 {
        break;
      }
      assert whole[..total] + whole[total..][..n] == whole[..total + n];
      WrittenTwice(old(file.data), offset, whole[..total], whole[total..][..n]);
      total := total + n;
      first := DropFirst(copy, first, n);
      assert whole[total - n..][n..] == whole[total..];
    }
    NothingLeft(copy[first..]);
    BytesWritten(old(file.data), offset, whole[..total]);
  }

  // Drops the first `n` bytes of the buffers in place.
  method DropFirst(iov: array<Octets>, start: nat, count: nat) returns (first: nat)
    requires start <= iov.Length && count <= |Concat(iov[start..])|
    modifies iov
    ensures start <= first <= iov.Length
    ensures Concat(iov[first..]) == old(Concat(iov[start..]))[count..]
  {
    var n := count;
    first := start;
    ghost var bytes := Concat(iov[start..]);
    while n > 0
      invariant start <= first <= iov.Length && 0 <= n <= count
      invariant n <= |Concat(iov[first..])| && Concat(iov[first..])[n..] == bytes[count..]
      decreases n, iov.Length - first
    {
      assert first < iov.Length;
      assert iov[first..][1..] == iov[first + 1..] && iov[first..][0] == iov[first];
      if n >= |iov[first]| {
        n := n - |iov[first]|;
        first := first + 1;
      } else {
        ghost var rest := Concat(iov[first + 1..]);
        ghost var was := iov[first];
        assert (was + rest)[n..] == was[n..] + rest;
        iov[first] := iov[first][n..];
        assert iov[first..][1..] == iov[first + 1..];
        return;
      }
    }
  }

  // JSON strings

  // `json_chars`: 1 for a character that stands for itself, the letter of a
  // two-character escape, or 0.
  function JsonChar(c: Octet): Octet {
    if c == '\t' then 't' else if c == '\n' then 'n' else if c == '\r' then 'r'
    else if c as int == 0x08 then 'b' else if c as int == 0x0C then 'f'
    else if c == '"' || c == '\\' then c
    else if 0x20 <= c as int < 0x7F then 1 as char
    else NUL
  }

  function HexDigit(n: nat): Octet
    requires n < 16
  {
    ['0', '1', '2', '3', '4', '5', '6', '7', '8', '9', 'A', 'B', 'C', 'D', 'E', 'F'][n]
  }

  function Escape(c: Octet): Octets {
    var esc := JsonChar(c);
    if esc == NUL then ['\\', 'u', '0', '0', HexDigit(c as int / 16), HexDigit(c as int % 16)]
    else if esc == 1 as char then [c]
    else ['\\', esc]
  }

  // Nothing is longer than it has to be.
  lemma EscapeLengths(c: Octet)
    ensures |Escape(c)| == 1 <==> 0x20 <= c as int < 0x7F && c != '"' && c != '\\'
    ensures |Escape(c)| == 2 <==> c in ['"', '\\', '\t', '\n', '\r'] || c as int in {8, 12}
    ensures |Escape(c)| in {1, 2, 6}
  {
  }

  function Escaped(s: Octets): Octets {
    if s == [] then [] else Escape(s[0]) + Escaped(s[1..])
  }

  function Quoted(s: Octets): Octets {
    ['"'] + Escaped(s) + ['"']
  }

  function HexValue(c: Octet): Option<nat> {
    if '0' <= c <= '9' then Some(c as int - '0' as int)
    else if 'A' <= c <= 'F' then Some(c as int - 'A' as int + 10)
    else if 'a' <= c <= 'f' then Some(c as int - 'a' as int + 10)
    else None
  }

  // A reader of the characters between the quotes, after section 7 of RFC 8259.
  // It takes \u00XX to mean the byte XX.
  function Unescape(s: Octets): Option<Octets> {
    if s == [] then Some([])
    else if s[0] == '"' || s[0] as int < 0x20 then None
    else if s[0] != '\\' then Prepend(s[0], Unescape(s[1..]))
    else if |s| < 2 then None
    else if s[1] in ['"', '\\', '/'] then Prepend(s[1], Unescape(s[2..]))
    else if s[1] == 'b' then Prepend(8 as char, Unescape(s[2..]))
    else if s[1] == 'f' then Prepend(12 as char, Unescape(s[2..]))
    else if s[1] == 'n' then Prepend('\n', Unescape(s[2..]))
    else if s[1] == 'r' then Prepend('\r', Unescape(s[2..]))
    else if s[1] == 't' then Prepend('\t', Unescape(s[2..]))
    else if s[1] == 'u' && |s| >= 6 && s[2] == '0' && s[3] == '0' && HexValue(s[4]).Some? && HexValue(s[5]).Some? then
      Prepend((16 * HexValue(s[4]).value + HexValue(s[5]).value) as char, Unescape(s[6..]))
    else None
  }

  function Prepend(c: Octet, s: Option<Octets>): Option<Octets> {
    if s.Some? then Some([c] + s.value) else None
  }

  lemma UnescapePlain(c: Octet, rest: Octets)
    requires JsonChar(c) == 1 as char
    ensures Unescape([c] + rest) == Prepend(c, Unescape(rest))
  {
    assert ([c] + rest)[1..] == rest;
  }

  lemma UnescapeLetter(c: Octet, rest: Octets)
    requires JsonChar(c) != 1 as char && JsonChar(c) != NUL
    ensures Unescape(['\\', JsonChar(c)] + rest) == Prepend(c, Unescape(rest))
  {
    var t := ['\\', JsonChar(c)] + rest;
    assert t[0] == '\\' && t[1] == JsonChar(c) && t[2..] == rest;
  }

  lemma HexRoundTrip(n: nat)
    requires n < 16
    ensures HexValue(HexDigit(n)) == Some(n) && 0x20 <= HexDigit(n) as int < 0x7F
  {
  }

  lemma UnescapeHex(c: Octet, rest: Octets)
    ensures Unescape(['\\', 'u', '0', '0', HexDigit(c as int / 16), HexDigit(c as int % 16)] + rest) == Prepend(c, Unescape(rest))
  {
    hide HexDigit, HexValue;
    var high, low := HexDigit(c as int / 16), HexDigit(c as int % 16);
    HexRoundTrip(c as int / 16);
    HexRoundTrip(c as int % 16);
    var t := ['\\', 'u', '0', '0', high, low] + rest;
    assert t[0] == '\\' && t[1] == 'u' && t[2] == '0' && t[3] == '0' && t[4] == high && t[5] == low && t[6..] == rest;
  }

  lemma UnescapeOne(c: Octet, rest: Octets)
    ensures Unescape(Escape(c) + rest) == Prepend(c, Unescape(rest))
    ensures forall d :: d in Escape(c) ==> 0x20 <= d as int < 0x7F
  {
    hide Unescape, HexDigit;
    HexRoundTrip(c as int / 16);
    HexRoundTrip(c as int % 16);
    UnescapeHex(c, rest);
    if JsonChar(c) == 1 as char {
      UnescapePlain(c, rest);
    } else if JsonChar(c) != NUL {
      UnescapeLetter(c, rest);
    }
  }

  // Quoting loses nothing, and only printable ASCII characters come out of it.
  lemma {:induction false} EscapedReadsBack(s: Octets)
    ensures Unescape(Escaped(s)) == Some(s)
    ensures forall c :: c in Escaped(s) ==> 0x20 <= c as int < 0x7F
  {
    hide Escape;
    if s != [] {
      EscapedReadsBack(s[1..]);
      UnescapeOne(s[0], Escaped(s[1..]));
      assert s == [s[0]] + s[1..];
    }
  }

  lemma EscapedConcat(a: Octets, b: Octets)
    ensures Escaped(a + b) == Escaped(a) + Escaped(b)
  {
    hide Escape;
    if a == [] {
      assert a + b == b;
    } else {
      assert (a + b)[0] == a[0] && (a + b)[1..] == a[1..] + b;
    }
  }

  lemma EscapedSingle(c: Octet)
    ensures Escaped([c]) == Escape(c)
  {
    hide Escape;
    assert [c][1..] == [];
  }

  lemma EscapedStep(s: Octets, i: nat)
    requires i < |s|
    ensures Escaped(s[..i + 1]) == Escaped(s[..i]) + Escape(s[i])
    ensures Escaped(s[i..]) == Escape(s[i]) + Escaped(s[i + 1..])
  {
    hide Escape, Escaped;
    assert s[..i + 1] == s[..i] + [s[i]] && s[i..] == [s[i]] + s[i + 1..];
    EscapedConcat(s[..i], [s[i]]);
    EscapedConcat([s[i]], s[i + 1..]);
    EscapedSingle(s[i]);
  }

  // The space a JSON string needs, with its quotes and the NUL byte.
  method JsonBufsize(s: Octets, from: nat) returns (n: nat)
    requires from <= |s|
    ensures n == |Quoted(s[from..])| + 1
  {
    hide Escaped, JsonChar;
    n := 3;
    assert s[from..][..0] == [];
    EscapedNothing();
    for i := from to |s|
      invariant n == 3 + |Escaped(s[from..][..i - from])|
    {
      EscapedStep(s[from..], i - from);
      var esc := JsonChar(s[i]);
      if esc == NUL {
        n := n + 6;
      } else if esc == 1 as char {
        n := n + 1;
      } else {
        n := n + 2;
      }
    }
    assert s[from..][..|s| - from] == s[from..];
  }

  lemma EscapedNothing()
    ensures Escaped([]) == []
  {
  }

  // Writes `s` behind `head` unless that would pass the end of the buffer.
  method Put(json: array<Octet>, dst: nat, s: Octets, ghost head: Octets, ghost was: Octets) returns (ok: bool)
    requires |head| == dst <= json.Length == |was| && json[..] == head + was[dst..]
    modifies json
    ensures ok <==> dst + |s| <= json.Length
    ensures json[..] == if ok then head + s + was[dst + |s|..] else head + was[dst..]
  {
    ok := dst + |s| <= json.Length;
    if ok {
      forall k | 0 <= k < |s| {
        json[dst + k] := s[k];
      }
    }
  }

  /**
  `json_strlcpy`: quotes `src` into a buffer of at least one byte. The result is
  the length of the quoted string, whether it fits or not. If it does not, the
  buffer holds its beginning: `done` characters and as much as the NUL byte leaves.
  */
  method JsonStrlcpy(json: array<Octet>, src: Octets) returns (n: nat, ghost done: nat)
    requires json.Length >= 1
    modifies json
    ensures n == |Quoted(src)|
    ensures n < json.Length ==> json[..] == Quoted(src) + [NUL] + old(json[..])[n + 1..]
    ensures n >= json.Length ==>
              && done <= |src| && 1 + |Escaped(src[..done])| <= json.Length
              && (done < |src| ==> 1 + |Escaped(src[..done + 1])| > json.Length)
              && json[..] == (['"'] + Escaped(src[..done]) + old(json[..])[1 + |Escaped(src[..done])|..])[..json.Length - 1] + [NUL]
  {
    hide Escaped, Escape, WriteAt;
    ghost var was := json[..];
    var dst, i := PutEscaped(json, src);
    done := i;
    assert src[..|src|] == src;
    if i < |src| || dst + 2 > json.Length {
      if i < |src| {
        EscapedConcat(src[..i + 1], src[i + 1..]);
        assert src[..i + 1] + src[i + 1..] == src;
      }
      n := Overflow(json, dst, src, i);
      return;
    }
    var ok := Put(json, dst, ['"', NUL], ['"'] + Escaped(src), was);
    n := dst + 1;
    assert ['"'] + Escaped(src) + ['"', NUL] == Quoted(src) + [NUL];
  }

  // The opening quote and as many whole escapes as there is room for.
  method PutEscaped(json: array<Octet>, src: Octets) returns (dst: nat, i: nat)
    requires json.Length >= 1
    modifies json
    ensures i <= |src| && dst == 1 + |Escaped(src[..i])| <= json.Length
    ensures i < |src| ==> 1 + |Escaped(src[..i + 1])| > json.Length
    ensures json[..] == ['"'] + Escaped(src[..i]) + old(json[..])[dst..]
  {
    hide Escaped, Escape;
    ghost var was, head := json[..], Opened(src, 0);
    OpenedAt(src, 0);
    json[0] := '"';
    dst, i := 1, 0;
    while i < |src|
      invariant i <= |src| && head == Opened(src, i) && dst == |head| <= json.Length
      invariant json[..] == head + was[dst..]
    {
      OpenedAt(src, i);
      var ok := Put(json, dst, Escape(src[i]), head, was);
      if !ok {
        return;
      }
      dst, i, head := dst + |Escape(src[i])|, i + 1, head + Escape(src[i]);
    }
  }

  // The quoted string up to character `i`.
  ghost function Opened(src: Octets, i: nat): Octets
    requires i <= |src|
  {
    ['"'] + Escaped(src[..i])
  }

  lemma OpenedAt(src: Octets, i: nat)
    requires i <= |src|
    ensures Opened(src, 0) == ['"']
    ensures i < |src| ==> Opened(src, i + 1) == Opened(src, i) + Escape(src[i])
  {
    EscapedNothing();
    assert src[..0] == [];
    if i < |src| {
      EscapedStep(src, i);
    }
  }

  // The end of a quoted string that did not fit.
  method Overflow(json: array<Octet>, dst: nat, src: Octets, i: nat) returns (n: nat)
    requires json.Length >= 1 && i <= |src| && dst == 1 + |Escaped(src[..i])|
    modifies json
    ensures n == |Quoted(src)|
    ensures json[..] == old(json[..])[..json.Length - 1] + [NUL]
  {
    hide Escaped;
    json[json.Length - 1] := NUL;
    var rest := JsonBufsize(src, i);
    n := dst + rest - 2;
    EscapedConcat(src[..i], src[i..]);
    assert src[..i] + src[i..] == src;
  }
}
