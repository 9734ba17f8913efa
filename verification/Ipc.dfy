/**
IPC datagrams: an action, a slot number and an optional tail as text. What
`ipc_send` accepts, `ipc_process_incoming` takes apart again.
*/
module Ipc {
  import opened RingBuffer
  import opened Text
  import opened Wrappers

  const IPC_MAXSIZE := 511

  const SIZE_MAX := 0xFFFF_FFFF_FFFF_FFFF

  // The text of a datagram, without its NUL byte.
  function Frame(action: Bytes, slot: nat, tail: Option<Bytes>): Bytes {
    action + " slot=" + Decimal(slot) + if tail.None? then [] else " " + tail.value
  }

  /** `ipc_send`: the datagram, or nothing if it is too long. */
  method IpcSend(action: Bytes, slot: nat, tail: Option<Bytes>) returns (r: Option<Bytes>)
    ensures r == if |Frame(action, slot, tail)| < IPC_MAXSIZE then Some(Frame(action, slot, tail) + [NUL]) else None
  {
    hide Decimal;
    var buf := new char[IPC_MAXSIZE];
    var head := action + " slot=" + Decimal(slot);
    var n := Snprintf(buf, 0, head);
    if n >= buf.Length {
      return None;
    }
    var size := n;
    assert buf[..size + 1] == head + [NUL];
    if tail.Some? {
      assert buf[..size] == buf[..size + 1][..size] == head;
      buf[size] := ' ';
      size := size + 1;
      assert buf[..size] == head + " ";
      n := Snprintf(buf, size, tail.value);
      if n >= buf.Length - size {
        return None;
      }
      assert buf[..size + n + 1] == buf[..size] + buf[size..size + n + 1];
      size := size + n;
    }
    assert buf[..size + 1] == Frame(action, slot, tail) + [NUL];
    size := size + 1;
    r := Some(buf[..size]);
  }

  // `sscanf(buf, "%*s%zn slot=%zu%zn", ...)`

  predicate IsSpace(c: char) {
    c == ' ' || 9 <= c as int <= 13
  }

  predicate NotSpace(c: char) {
    !IsSpace(c)
  }

  // The index behind the longest run of characters of one class.
  function Skip(s: Bytes, at: nat, class_: char -> bool): (end: nat)
    requires at <= |s|
    ensures at <= end <= |s| && (forall i :: at <= i < end ==> class_(s[i])) && (end < |s| ==> !class_(s[end]))
    decreases |s| - at
  {
    if at < |s| && class_(s[at]) then Skip(s, at + 1, class_) else at
  }

  datatype Scan =
    | NoMatch
    | Scanned(actionLen: nat, slot: nat, consumed: nat)

  // An unsigned conversion accepts a sign and saturates.
  function Unsigned(negative: bool, value: nat): nat {
    if value > SIZE_MAX then SIZE_MAX
    else if negative && value > 0 then SIZE_MAX + 1 - value
    else value
  }

  function Sscanf(s: Bytes): (r: Scan)
    ensures r.Scanned? ==> r.actionLen <= r.consumed <= |s|
  {
    var word := Skip(s, 0, IsSpace);
    var actionLen := Skip(s, word, NotSpace);
    var literal := Skip(s, actionLen, IsSpace);
    if word == |s| || literal + 5 > |s| || s[literal..literal + 5] != "slot=" then NoMatch
    else ScanNumber(s, actionLen, literal + 5)
  }

  function ScanNumber(s: Bytes, actionLen: nat, at: nat): (r: Scan)
    requires actionLen <= at <= |s|
    ensures r.Scanned? ==> r.actionLen <= r.consumed <= |s|
  {
    var sign := Skip(s, at, IsSpace);
    var digits := if sign < |s| && (s[sign] == '+' || s[sign] == '-') then sign + 1 else sign;
    var consumed := Skip(s, digits, IsDigit);
    if consumed == digits then NoMatch
    else
      assert forall c :: c in s[digits..consumed] ==> IsDigit(c);
      Scanned(actionLen, Unsigned(digits > sign && s[sign] == '-', Value(s[digits..consumed])), consumed)
  }

  datatype Incoming =
    | Truncated                // at least the size of the buffer
    | Unparseable
    | Message(action: Bytes, slot: nat, tail: Option<Bytes>)

  /** The part of `ipc_process_incoming` that takes a datagram of `n` bytes apart, in place. */
  method ParseMessage(buf: array<char>, n: nat) returns (r: Incoming)
    requires buf.Length == IPC_MAXSIZE + 1 && 0 < n <= buf.Length
    modifies buf
    ensures r.Truncated? <==> n >= buf.Length
    ensures n < buf.Length ==> r == Parsed(old(buf[..n]))
  {
    hide Sscanf, CString;
    if n >= buf.Length {
      return Truncated;
    }
    ghost var received := buf[..n];
    buf[n] := NUL;
    TextOf(buf[..], received);
    var text := CString(buf[..], 0);
    var scan := Sscanf(text);
    if scan.NoMatch? {
      return Unparseable;
    }
    var tail := CutTail(buf, scan.consumed, text);
    var action := CutAction(buf, scan.actionLen, text);
    r := Message(action, scan.slot, tail);
  }

  // The tail follows a single space; anything else behind the slot is stripped.
  method CutTail(buf: array<char>, at: nat, ghost text: Bytes) returns (tail: Option<Bytes>)
    requires at <= |text| < buf.Length && buf[..|text|] == text && NUL !in text && buf[|text|] == NUL
    modifies buf
    ensures buf[..at] == old(buf[..at])
    ensures tail == if at < |text| && text[at] == ' ' then Some(text[at + 1..]) else None
  {
    hide CString;
    assert at < |text| ==> buf[at] == buf[..|text|][at];
    if buf[at] == ' ' {
      TailOf(buf[..], text, at + 1);
      tail := Some(CString(buf[..], at + 1));
    } else {
      buf[at] := NUL;
      tail := None;
    }
  }

  method CutAction(buf: array<char>, len: nat, ghost text: Bytes) returns (action: Bytes)
    requires len <= |text| && len < buf.Length && buf[..len] == text[..len] && NUL !in text
    modifies buf
    ensures action == text[..len]
  {
    hide CString;
    buf[len] := NUL;
    ActionOf(buf[..], text, len);
    action := CString(buf[..], 0);
  }

  // What a datagram means.
  function Parsed(received: Bytes): Incoming {
    var text := CString(received, 0);
    var scan := Sscanf(text);
    if scan.NoMatch? then Unparseable
    else
      var at := scan.consumed;
      Message(text[..scan.actionLen], scan.slot, if at < |text| && text[at] == ' ' then Some(text[at + 1..]) else None)
  }

  lemma TextOf(buf: Bytes, received: Bytes)
    requires |received| < |buf| && buf[..|received|] == received && buf[|received|] == NUL
    ensures CString(buf, 0) == CString(received, 0)
    ensures var t := CString(buf, 0); |t| < |buf| && buf[..|t|] == t && buf[|t|] == NUL && NUL !in t
  {
    var t := CString(received, 0);
    assert buf[..|t|] == received[..|t|];
    CStringIs(buf, 0, t);
  }

  lemma TailOf(buf: Bytes, text: Bytes, at: nat)
    requires at <= |text| < |buf| && buf[..|text|] == text && NUL !in text && buf[|text|] == NUL
    ensures CString(buf, at) == text[at..]
  {
    assert buf[at..at + |text[at..]|] == text[at..];
    CStringIs(buf, at, text[at..]);
  }

  lemma ActionOf(buf: Bytes, text: Bytes, len: nat)
    requires len <= |text| && len < |buf| && buf[..len] == text[..len] && NUL !in text && buf[len] == NUL
    ensures CString(buf, 0) == text[..len]
  {
    CStringIs(buf, 0, text[..len]);
  }

  lemma {:induction false} SkipTo(s: Bytes, at: nat, end: nat, class_: char -> bool)
    requires at <= end <= |s| && (forall i :: at <= i < end ==> class_(s[i])) && (end < |s| ==> !class_(s[end]))
    ensures Skip(s, at, class_) == end
    decreases end - at
  {
    if at < end {
      SkipTo(s, at + 1, end, class_);
    }
  }

  // A run of white space, of other characters, of digits.

  ghost predicate White(s: Bytes, from: nat, to: nat) {
    from <= to <= |s| && forall i :: from <= i < to ==> s[i] == ' ' || 9 <= s[i] as int <= 13
  }

  ghost predicate Word(s: Bytes, from: nat, to: nat) {
    from <= to <= |s| && forall i :: from <= i < to ==> s[i] != ' ' && !(9 <= s[i] as int <= 13)
  }

  ghost predicate Digits(s: Bytes, from: nat, to: nat) {
    from <= to <= |s| && forall i :: from <= i < to ==> '0' <= s[i] <= '9'
  }

  lemma DigitsOnly(s: Bytes, from: nat, to: nat)
    requires Digits(s, from, to)
    ensures forall c :: c in s[from..to] ==> '0' <= c <= '9'
  {
  }

  lemma AreDigits(s: Bytes, from: nat, to: nat)
    requires from <= to <= |s| && forall c :: c in s[from..to] ==> IsDigit(c)
    ensures Digits(s, from, to)
  {
    forall i | from <= i < to
      ensures '0' <= s[i] <= '9'
    {
      assert s[from..to][i - from] in s[from..to];
    }
  }

  // How a text is scanned: a word, "slot=" and a number, each behind white space, and
  // before the digits a sign.
  ghost predicate Divided(s: Bytes, word: nat, a: nat, lit: nat, num: nat, digits: nat, end: nat) {
    && word < a < lit && lit + 5 <= num <= digits < end <= |s|
    && White(s, 0, word) && Word(s, word, a) && White(s, a, lit) && White(s, lit + 5, num)
    && s[lit..lit + 5] == "slot="
    && (digits == num || (digits == num + 1 && (s[num] == '+' || s[num] == '-')))
    && (forall c :: c in s[digits..end] ==> '0' <= c <= '9') && (end < |s| ==> !('0' <= s[end] <= '9'))
  }

  // The runs are where the scanner stops.
  lemma Runs(s: Bytes, word: nat, a: nat, lit: nat, num: nat, digits: nat, end: nat)
    requires Divided(s, word, a, lit, num, digits, end)
    ensures Skip(s, 0, IsSpace) == word && Skip(s, word, NotSpace) == a && Skip(s, a, IsSpace) == lit
    ensures Skip(s, lit + 5, IsSpace) == num && Skip(s, digits, IsDigit) == end
    ensures if s[num] == '+' || s[num] == '-' then digits == num + 1 else digits == num
  {
    AreDigits(s, digits, end);
    assert s[lit] == s[lit..lit + 5][0] == 's';
    SkipTo(s, 0, word, IsSpace);
    SkipTo(s, word, a, NotSpace);
    SkipTo(s, a, lit, IsSpace);
    SkipTo(s, lit + 5, num, IsSpace);
    SkipTo(s, digits, end, IsDigit);
  }

  // A text is scanned if it can be divided, and only then.
  lemma Scans(s: Bytes, word: nat, a: nat, lit: nat, num: nat, digits: nat, end: nat)
    requires Divided(s, word, a, lit, num, digits, end)
    ensures Sscanf(s) == Scanned(a, Unsigned(digits > num && s[num] == '-', Value(s[digits..end])), end)
  {
    hide Value, Unsigned, White, Word, IsSpace, NotSpace, Skip, ScanNumber, Sscanf;
    Runs(s, word, a, lit, num, digits, end);
    assert forall c :: c in s[digits..end] ==> IsDigit(c);
    hide Divided;
    HeadScans(s, word, a, lit);
    NumberScans(s, a, lit + 5, num, digits, end);
  }

  lemma HeadScans(s: Bytes, word: nat, a: nat, lit: nat)
    requires word < a < lit && lit + 5 <= |s| && s[lit..lit + 5] == "slot="
    requires Skip(s, 0, IsSpace) == word && Skip(s, word, NotSpace) == a && Skip(s, a, IsSpace) == lit
    ensures Sscanf(s) == ScanNumber(s, a, lit + 5)
  {
    hide Skip, ScanNumber, IsSpace, NotSpace;
  }

  lemma NumberScans(s: Bytes, a: nat, at: nat, num: nat, digits: nat, end: nat)
    requires a <= at <= num <= digits < end <= |s| && (forall c :: c in s[digits..end] ==> IsDigit(c))
    requires if s[num] == '+' || s[num] == '-' then digits == num + 1 else digits == num
    requires Skip(s, at, IsSpace) == num && Skip(s, digits, IsDigit) == end
    ensures ScanNumber(s, a, at) == Scanned(a, Unsigned(digits > num && s[num] == '-', Value(s[digits..end])), end)
  {
    hide Skip, Value, Unsigned, IsSpace, IsDigit;
  }

  lemma ScansOnly(s: Bytes)
    requires Sscanf(s).Scanned?
    ensures exists word, a, lit, num, digits, end :: Divided(s, word, a, lit, num, digits, end)
  {
    hide White, Word, Digits, IsSpace, NotSpace, IsDigit, Skip;
    var word := Skip(s, 0, IsSpace);
    var a := Skip(s, word, NotSpace);
    var lit := Skip(s, a, IsSpace);
    var num := Skip(s, lit + 5, IsSpace);
    var digits := if num < |s| && (s[num] == '+' || s[num] == '-') then num + 1 else num;
    var end := Skip(s, digits, IsDigit);
    assert s[lit] == s[lit..lit + 5][0] == 's';
    RunsFound(s, 0, word);
    RunsFound(s, a, lit);
    RunsFound(s, lit + 5, num);
    WordFound(s, word, a);
    DigitsFound(s, digits, end);
    DigitsOnly(s, digits, end);
    assert Divided(s, word, a, lit, num, digits, end);
  }

  lemma RunsFound(s: Bytes, at: nat, end: nat)
    requires at <= |s| && end == Skip(s, at, IsSpace)
    ensures White(s, at, end) && (end < |s| ==> !IsSpace(s[end]))
  {
    hide Skip;
  }

  lemma WordFound(s: Bytes, at: nat, end: nat)
    requires at <= |s| && end == Skip(s, at, NotSpace)
    requires Skip(s, end, IsSpace) < |s| && s[Skip(s, end, IsSpace)] == 's' && (at < |s| ==> !IsSpace(s[at]))
    ensures Word(s, at, end) && (at < |s| ==> at < end < Skip(s, end, IsSpace))
  {
  }

  lemma DigitsFound(s: Bytes, at: nat, end: nat)
    requires at <= |s| && end == Skip(s, at, IsDigit)
    ensures Digits(s, at, end) && (end < |s| ==> !('0' <= s[end] <= '9'))
  {
    hide Skip;
  }

  lemma ScansFrame(s: Bytes, a: nat, end: nat)
    requires 0 < a && a + 6 < end <= |s| && s[a] == ' ' && s[a + 1..a + 6] == "slot="
    requires (forall i :: 0 <= i < a ==> NotSpace(s[i])) && (forall c :: c in s[a + 6..end] ==> IsDigit(c))
    requires end < |s| ==> !IsDigit(s[end])
    ensures Sscanf(s) == Scanned(a, Unsigned(false, Value(s[a + 6..end])), end)
  {
    hide Value, Unsigned, Sscanf;
    AreDigits(s, a + 6, end);
    assert White(s, 0, 0) && Word(s, 0, a) && White(s, a, a + 1) && White(s, a + 6, a + 6);
    Scans(s, 0, a, a + 1, a + 6, a + 6, end);
  }

  lemma Parts(a: Bytes, b: Bytes, c: Bytes, d: Bytes)
    ensures var s := a + b + c + d;
            && s[..|a|] == a && s[|a|..|a| + |b|] == b && s[|a| + |b|..|a| + |b| + |c|] == c && s[|a| + |b| + |c|..] == d
  {
  }

  // The parts of a frame.
  lemma FrameShape(action: Bytes, slot: nat, tail: Option<Bytes>)
    ensures var s, a, end := Frame(action, slot, tail), |action|, |action| + 6 + |Decimal(slot)|;
            && a + 6 < end <= |s| && s[..a] == action && s[a] == ' ' && s[a + 1..a + 6] == "slot=" && s[a + 6..end] == Decimal(slot)
            && (if tail.None? then end == |s| else end < |s| && s[end] == ' ' && s[end + 1..] == tail.value)
  {
    hide Decimal;
    var s, a, end := Frame(action, slot, tail), |action|, |action| + 6 + |Decimal(slot)|;
    Parts(action, " slot=", Decimal(slot), if tail.None? then [] else " " + tail.value);
    assert s[a] == s[a..a + 6][0] && s[a + 1..a + 6] == s[a..a + 6][1..];
    if tail.Some? {
      assert s[end] == s[end..][0] && s[end + 1..] == s[end..][1..];
    }
  }

  lemma FrameHasNoNul(action: Bytes, slot: nat, tail: Option<Bytes>)
    requires NUL !in action && (tail.Some? ==> NUL !in tail.value)
    ensures NUL !in Frame(action, slot, tail)
  {
    hide Decimal;
    assert NUL !in Decimal(slot);
  }

  // A datagram means what was sent; the tail comes back as it was, or not at all.
  lemma RoundTrip(action: Bytes, slot: nat, tail: Option<Bytes>)
    requires action != [] && slot <= SIZE_MAX && (forall c :: c in action ==> NotSpace(c)) && NUL !in action
    requires tail.Some? ==> NUL !in tail.value
    ensures Parsed(Frame(action, slot, tail) + [NUL]) == Message(action, slot, tail)
  {
    hide Sscanf, Decimal, Frame, Value, CString;
    var s := Frame(action, slot, tail);
    FrameHasNoNul(action, slot, tail);
    FrameShape(action, slot, tail);
    assert forall i :: 0 <= i < |action| ==> s[i] == s[..|action|][i] == action[i];
    CStringIs(s + [NUL], 0, s);
    ScansFrame(s, |action|, |action| + 6 + |Decimal(slot)|);
    DecimalReadsBack(slot);
  }

  /**
  `ipc_send`, and `ipc_process_incoming` at the other end: every datagram that is
  accepted is received as what was sent, and none is too long for the receiver.
  */
  method Exchange(action: Bytes, slot: nat, tail: Option<Bytes>) returns (r: Option<Incoming>)
    requires action != [] && slot <= SIZE_MAX && (forall c :: c in action ==> NotSpace(c)) && NUL !in action
    requires tail.Some? ==> NUL !in tail.value
    ensures r == if |Frame(action, slot, tail)| < IPC_MAXSIZE then Some(Message(action, slot, tail)) else None
  {
    hide Frame, Parsed;
    var datagram := IpcSend(action, slot, tail);
    if datagram.None? {
      return None;
    }
    RoundTrip(action, slot, tail);
    var buf := new char[IPC_MAXSIZE + 1];
    forall i | 0 <= i < |datagram.value| {
      buf[i] := datagram.value[i];
    }
    assert buf[..|datagram.value|] == datagram.value;
    var incoming := ParseMessage(buf, |datagram.value|);
    r := Some(incoming);
  }
}
