/**
The transformation of one direction of a connection: wait for a complete
message head, rewrite it, and forward everything behind it unchanged. Whatever is
not HTTP is forwarded unchanged from its first byte.
*/
module Transform {
  import opened RingBuffer
  import opened Text
  import opened Http

  const USER_AGENT: Bytes := "crash-tolerant-proxy"

  // Requests travel upstream, responses downstream.
  datatype Kind = RequestKind | ResponseKind

  datatype ParseResult =
    | Incomplete
    | Malformed
    | Accepted(consumed: nat, head: Head)

  // The parser of one direction, and the head that is sent for a parsed one, given
  // the process id of the sender.
  datatype Protocol = Protocol(kind: Kind, parse: Bytes -> ParseResult, rewrite: (Head, Bytes) -> Bytes)

  // Recognizing the beginning of a head

  predicate IsUpper(c: char) {
    'A' <= c <= 'Z'
  }

  const HTTP_1: Bytes := "HTTP/1."

  // From `from`, characters of one class up to index `k`, then the end or a space.
  ghost predicate WordAt(s: Bytes, from: nat, k: nat, low: char, high: char) {
    && from <= k <= |s|
    && (forall i :: from <= i < k ==> low <= s[i] <= high)
    && (k == |s| || s[k] == ' ')
  }

  // Capital letters only, or at least one followed by a space.
  ghost predicate RequestLike(s: Bytes) {
    s == [] || exists k :: 0 < k && WordAt(s, 0, k, 'A', 'Z')
  }

  // "HTTP/1." and digits, ended by a space; or the beginning of that.
  ghost predicate ResponseLike(s: Bytes) {
    s <= "HTTP/1." || ("HTTP/1." <= s && exists k :: WordAt(s, 7, k, '0', '9'))
  }

  ghost predicate LooksLike(kind: Kind, s: Bytes) {
    if kind == RequestKind then RequestLike(s) else ResponseLike(s)
  }

  // The beginning of something that looks like a head looks like a head.
  lemma LooksLikePrefix(kind: Kind, s: Bytes, t: Bytes)
    requires s <= t && LooksLike(kind, t)
    ensures LooksLike(kind, s)
  {
    if s == [] {
      return;
    } else if kind == RequestKind {
      var k: nat :| 0 < k && WordAt(t, 0, k, 'A', 'Z');
      assert WordAt(s, 0, if k < |s| then k else |s|, 'A', 'Z');
    } else if |s| > 7 {
      var k: nat :| WordAt(t, 7, k, '0', '9');
      assert WordAt(s, 7, if k < |s| then k else |s|, '0', '9');
    }
  }

  method LooksLikeHttpRequest(buf: Bytes) returns (r: bool)
    ensures r == RequestLike(buf)
  {
    var i, n := 0, |buf|;
    if n == 0 {
      return true;
    }
    if !IsUpper(buf[i]) {
      return false;
    }
    n := n - 1;
    while n > 0
      invariant i + 1 + n == |buf| && n >= 0
      invariant forall j :: 0 <= j <= i ==> IsUpper(buf[j])
    {
      i := i + 1;
      if !IsUpper(buf[i]) {
        assert buf[i] == ' ' ==> WordAt(buf, 0, i, 'A', 'Z');
        return buf[i] == ' ';
      }
      n := n - 1;
    }
    assert WordAt(buf, 0, |buf|, 'A', 'Z');
    return true;
  }

  method LooksLikeHttpResponse(buf: Bytes) returns (r: bool)
    ensures r == ResponseLike(buf)
  {
    var i, n := 0, |buf|;
    while i < |HTTP_1| && n > 0
      invariant 0 <= i <= |HTTP_1| && i + n == |buf| && n >= 0
      invariant forall j :: 0 <= j < i ==> buf[j] == HTTP_1[j]
    {
      if HTTP_1[i] != buf[i] {
        return false;
      }
      i, n := i + 1, n - 1;
    }
    while n > 0
      invariant i + n == |buf| && n >= 0
      invariant i < |HTTP_1| ==> n == 0
      invariant forall j :: 0 <= j < i && j < |HTTP_1| ==> buf[j] == HTTP_1[j]
      invariant forall j :: |HTTP_1| <= j < i ==> IsDigit(buf[j])
    {
      if !IsDigit(buf[i]) {
        assert buf[i] == ' ' ==> WordAt(buf, 7, i, '0', '9');
        return buf[i] == ' ';
      }
      i, n := i + 1, n - 1;
    }
    assert |buf| >= 7 ==> WordAt(buf, 7, |buf|, '0', '9');
    return true;
  }

  // What can be said of any sensible parser: it is right about how much it consumes
  // and does not change its mind when more bytes follow.
  ghost predicate Consistent(p: Protocol) {
    && (forall s: Bytes :: p.parse(s).Accepted? ==>
          0 < p.parse(s).consumed <= |s| && (p.kind == RequestKind <==> p.parse(s).head.Request?))
    && (forall s: Bytes, t: Bytes :: s <= t && p.parse(s).Accepted? ==> p.parse(t) == p.parse(s))
    && (forall s: Bytes, t: Bytes :: s <= t && p.parse(s).Malformed? ==> p.parse(t).Malformed?)
  }

  // What is sent for a head is never empty, besides.
  ghost predicate PrefixStable(p: Protocol) {
    Consistent(p) && forall head, pid :: p.rewrite(head, pid) != []
  }

  // The part of the input in which a head has to be complete.
  function Front(whole: Bytes): Bytes {
    if |whole| <= N then whole else whole[..N]
  }

  // What the proofs assume of the input: if it begins with a head, it looks like one.
  ghost predicate HeadLooksLike(p: Protocol, whole: Bytes) {
    p.parse(Front(whole)).Accepted? ==> LooksLike(p.kind, Front(whole))
  }

  // The rewritten head

  function StatusLine(head: Head): Bytes {
    match head
    case Request(m, path, _) => m + " " + path + " HTTP/1.1" + CRLF
    case Response(status, reason, _) => "HTTP/1.1 " + Decimal(status) + " " + reason + CRLF
  }

  function Edits(kind: Kind, pid: Bytes): seq<Header> {
    if kind == RequestKind then
      [Header("Connection", "close"), Header("User-Agent", USER_AGENT), Header("DNT", "1"), Header("Sec-GPC", "1")]
    else
      [Header("Connection", "close"), Header("Server", USER_AGENT),
       Header("X-Clacks-Overhead", "GNU Terry Pratchett"), Header("X-Proxy-PID", pid)]
  }

  function RewrittenHeaders(kind: Kind, hs: seq<Header>, pid: Bytes): seq<Header> {
    ReplaceAll(if kind == RequestKind then Strip(hs) else hs, Edits(kind, pid))
  }

  function RewrittenHead(kind: Kind, head: Head, pid: Bytes): Bytes {
    Message(StatusLine(head), RewrittenHeaders(kind, head.headers, pid))
  }

  // The protocol rewrites heads as `transform` does.
  ghost predicate RewritesHttp(p: Protocol) {
    forall head, pid :: p.rewrite(head, pid) == RewrittenHead(p.kind, head, pid)
  }

  function HttpProtocol(kind: Kind, parse: Bytes -> ParseResult): Protocol {
    Protocol(kind, parse, (head, pid) => RewrittenHead(kind, head, pid))
  }

  // The rewriting meets the assumptions; the parser has to.
  lemma HttpRewrites(kind: Kind, parse: Bytes -> ParseResult)
    requires Consistent(HttpProtocol(kind, parse))
    ensures PrefixStable(HttpProtocol(kind, parse)) && RewritesHttp(HttpProtocol(kind, parse))
  {
    hide StatusLine, RewrittenHeaders;
  }

  // A parser that accepts nothing does.
  lemma NoHeads(kind: Kind)
    ensures var p := HttpProtocol(kind, s => Malformed); PrefixStable(p) && RewritesHttp(p)
  {
    HttpRewrites(kind, s => Malformed);
  }

  lemma ClacksIsNotPid()
    ensures !Matches("X-Clacks-Overhead", "X-Proxy-PID") && !Matches("X-Proxy-PID", "X-Clacks-Overhead")
  {
    assert "X-Clacks-Overhead"[1..][1..][0] == 'C' && "X-Proxy-PID"[1..][1..][0] == 'P';
    assert !Matches("X-Clacks-Overhead"[1..], "X-Proxy-PID"[1..]);
    assert !Matches("X-Proxy-PID"[1..], "X-Clacks-Overhead"[1..]);
  }

  lemma DifferentInitials(a: Bytes, b: Bytes)
    requires a != [] && b != [] && Lower(a[0]) != Lower(b[0])
    ensures !Matches(a, b)
  {
  }

  lemma EditsIndependent(kind: Kind, pid: Bytes)
    ensures Independent(Edits(kind, pid))
  {
    hide Matches;
    ClacksIsNotPid();
    var edits := Edits(kind, pid);
    forall i, j | 0 <= i < |edits| && 0 <= j < |edits| && i != j
      ensures !Matches(edits[i].name, edits[j].name)
    {
      if Lower(edits[i].name[0]) != Lower(edits[j].name[0]) {
        DifferentInitials(edits[i].name, edits[j].name);
      }
    }
  }

  // Each header the proxy sets occurs exactly once in the head it sends, with
  // the proxy's value; the others keep their order.
  lemma HeadRewritten(kind: Kind, hs: seq<Header>, pid: Bytes)
    ensures var kept, edits := if kind == RequestKind then Strip(hs) else hs, Edits(kind, pid);
            && Untouched(RewrittenHeaders(kind, hs, pid), edits) == Untouched(kept, edits)
            && (Plain(kept, edits) ==>
                  forall e :: e in edits ==> Once(RewrittenHeaders(kind, hs, pid), e.name, e.value))
  {
    var kept, edits := if kind == RequestKind then Strip(hs) else hs, Edits(kind, pid);
    ReplaceAllKeepsUntouched(kept, edits);
    if Plain(kept, edits) {
      EditsIndependent(kind, pid);
      ReplaceAllOnce(kept, edits);
    }
  }

  lemma ContentIsNotConnection()
    ensures !Matches("Content-Length", "Connection")
  {
    assert "Content-Length"[1..][1..][1..][0] == 't' && "Connection"[1..][1..][1..][0] == 'n';
    assert !Matches("Content-Length"[1..][1..], "Connection"[1..][1..]);
    assert !Matches("Content-Length"[1..], "Connection"[1..]);
  }

  // What says where a request ends and whom it is for goes through unchanged.
  lemma FramingKept(hs: seq<Header>, pid: Bytes, target: Bytes)
    requires target in ["Host", "Content-Length", "Transfer-Encoding"]
    ensures Named(RewrittenHeaders(RequestKind, hs, pid), target) == Named(hs, target)
  {
    hide Edits, Matches;
    FramingNotEdited(pid, target);
    MatchesSelf(target);
    StripKeepsNamed(hs, target);
    ReplaceAllKeepsNamed(Strip(hs), Edits(RequestKind, pid), target);
  }

  lemma FramingNotEdited(pid: Bytes, target: Bytes)
    requires target in ["Host", "Content-Length", "Transfer-Encoding"]
    ensures forall e :: e in Edits(RequestKind, pid) ==> !Matches(target, e.name)
  {
    hide Matches;
    ContentIsNotConnection();
    forall e | e in Edits(RequestKind, pid)
      ensures !Matches(target, e.name)
    {
      if Lower(target[0]) != Lower(e.name[0]) {
        DifferentInitials(target, e.name);
      }
    }
  }

  // What is sent of the headers, by name. A name that is, up to case, a prefix of
  // another one counts as that one, as in the source.

  lemma NoneOfEdits(kind: Kind, h: Header, pid: Bytes)
    requires NUL !in h.name
    ensures NoneOf(Edits(kind, pid))(h) <==>
              && !NamePrefix(h.name, "Connection")
              && (if kind == RequestKind
                  then !NamePrefix(h.name, "User-Agent") && !NamePrefix(h.name, "DNT") && !NamePrefix(h.name, "Sec-GPC")
                  else && !NamePrefix(h.name, "Server") && !NamePrefix(h.name, "X-Clacks-Overhead")
                       && !NamePrefix(h.name, "X-Proxy-PID"))
  {
    hide Matches, NamePrefix;
    var edits := Edits(kind, pid);
    forall e | e in edits
      ensures Matches(h.name, e.name) <==> NamePrefix(h.name, e.name)
    {
      MatchesPrefix(h.name, e.name);
    }
    assert edits[0] in edits && edits[1] in edits && edits[2] in edits && edits[3] in edits;
  }

  lemma EditsPlain(kind: Kind, pid: Bytes)
    ensures forall e :: e in Edits(kind, pid) ==> NUL !in e.name && '\r' !in e.name
    ensures '\r' !in pid ==> NoBreaks(Edits(kind, pid))
  {
    var edits := Edits(kind, pid);
    PrintableNames();
    PrintableValues();
    hide Printable;
    assert forall e :: e in edits ==> Printable(e.name) && (e.value == pid || Printable(e.value));
    hide Edits;
    forall e | e in edits
      ensures NUL !in e.name && '\r' !in e.name && (e.value == pid || '\r' !in e.value)
    {
      PrintableIsPlain(e.name);
      PrintableIsPlain(e.value);
    }
  }

  lemma PrintableNames()
    ensures Printable("Connection") && Printable("User-Agent") && Printable("DNT") && Printable("Sec-GPC")
    ensures Printable("Server") && Printable("X-Clacks-Overhead") && Printable("X-Proxy-PID")
  {
  }

  lemma PrintableValues()
    ensures Printable("close") && Printable(USER_AGENT) && Printable("1") && Printable("GNU Terry Pratchett")
  {
  }

  ghost predicate Printable(s: Bytes) {
    forall i :: 0 <= i < |s| ==> ' ' <= s[i]
  }

  lemma PrintableIsPlain(s: Bytes)
    ensures Printable(s) ==> NUL !in s && '\r' !in s
  {
  }

  lemma NoNulAfterwards(kind: Kind, hs: seq<Header>, pid: Bytes)
    requires forall h :: h in hs ==> NUL !in h.name
    ensures forall h :: h in RewrittenHeaders(kind, hs, pid) ==> NUL !in h.name
  {
    EditsPlain(kind, pid);
    hide Strip, Edits, ReplaceAll;
    StripWithin(hs);
    NamesAfterReplaceAll(if kind == RequestKind then Strip(hs) else hs, Edits(kind, pid));
  }

  // Apart from the four headers the proxy sets, a request goes through with exactly
  // its framing headers, in order.
  lemma RequestFiltered(hs: seq<Header>, pid: Bytes)
    requires forall h :: h in hs ==> NUL !in h.name
    ensures Select(RewrittenHeaders(RequestKind, hs, pid), (h: Header) =>
                     && !NamePrefix(h.name, "Connection") && !NamePrefix(h.name, "User-Agent")
                     && !NamePrefix(h.name, "DNT") && !NamePrefix(h.name, "Sec-GPC"))
         == Select(hs, (h: Header) =>
                     && (NamePrefix(h.name, "Host") || NamePrefix(h.name, "Content-Length")
                         || NamePrefix(h.name, "Transfer-Encoding"))
                     && !NamePrefix(h.name, "Connection") && !NamePrefix(h.name, "User-Agent")
                     && !NamePrefix(h.name, "DNT") && !NamePrefix(h.name, "Sec-GPC"))
  {
    hide NamePrefix, Strip;
    var out, none := RewrittenHeaders(RequestKind, hs, pid), NoneOf(Edits(RequestKind, pid));
    HeadRewritten(RequestKind, hs, pid);
    UntouchedIsSelect(out, Edits(RequestKind, pid));
    UntouchedIsSelect(Strip(hs), Edits(RequestKind, pid));
    StripIsSelect(hs);
    SelectTwice(hs, (h: Header) => Framing(h), none);
    NoNulAfterwards(RequestKind, hs, pid);
    forall h: Header | NUL !in h.name
      ensures none(h) <==> && !NamePrefix(h.name, "Connection") && !NamePrefix(h.name, "User-Agent")
                           && !NamePrefix(h.name, "DNT") && !NamePrefix(h.name, "Sec-GPC")
    {
      NoneOfEdits(RequestKind, h, pid);
    }
    hide RewrittenHeaders, NoneOf, Edits;
    SelectSame(out, none, (h: Header) =>
                     && !NamePrefix(h.name, "Connection") && !NamePrefix(h.name, "User-Agent")
                     && !NamePrefix(h.name, "DNT") && !NamePrefix(h.name, "Sec-GPC"));
    SelectSame(hs, (h: Header) => ((h: Header) => Framing(h))(h) && none(h), (h: Header) =>
                     && (NamePrefix(h.name, "Host") || NamePrefix(h.name, "Content-Length")
                         || NamePrefix(h.name, "Transfer-Encoding"))
                     && !NamePrefix(h.name, "Connection") && !NamePrefix(h.name, "User-Agent")
                     && !NamePrefix(h.name, "DNT") && !NamePrefix(h.name, "Sec-GPC"));
  }

  // Apart from the four headers the proxy sets, a response goes through with all
  // its headers, in order.
  lemma ResponseFiltered(hs: seq<Header>, pid: Bytes)
    requires forall h :: h in hs ==> NUL !in h.name
    ensures var other := (h: Header) =>
                     && !NamePrefix(h.name, "Connection") && !NamePrefix(h.name, "Server")
                     && !NamePrefix(h.name, "X-Clacks-Overhead") && !NamePrefix(h.name, "X-Proxy-PID");
            Select(RewrittenHeaders(ResponseKind, hs, pid), other) == Select(hs, other)
  {
    hide NamePrefix;
    var out, none := RewrittenHeaders(ResponseKind, hs, pid), NoneOf(Edits(ResponseKind, pid));
    HeadRewritten(ResponseKind, hs, pid);
    UntouchedIsSelect(out, Edits(ResponseKind, pid));
    UntouchedIsSelect(hs, Edits(ResponseKind, pid));
    NoNulAfterwards(ResponseKind, hs, pid);
    var other := (h: Header) =>
                     && !NamePrefix(h.name, "Connection") && !NamePrefix(h.name, "Server")
                     && !NamePrefix(h.name, "X-Clacks-Overhead") && !NamePrefix(h.name, "X-Proxy-PID");
    forall h: Header | NUL !in h.name
      ensures none(h) <==> other(h)
    {
      NoneOfEdits(ResponseKind, h, pid);
    }
    hide RewrittenHeaders, NoneOf, Edits;
    SelectSame(out, none, other);
    SelectSame(hs, none, other);
  }

  // What the proxy sets in a request occurs once, if no name is a prefix of "Con";
  // a longer one `strip_headers` takes away.
  lemma RequestSet(hs: seq<Header>, pid: Bytes)
    requires forall h :: h in hs ==> NUL !in h.name && !NamePrefix(h.name, "Con")
    ensures var out := RewrittenHeaders(RequestKind, hs, pid);
            && Once(out, "Connection", "close") && Once(out, "User-Agent", "crash-tolerant-proxy")
            && Once(out, "DNT", "1") && Once(out, "Sec-GPC", "1")
  {
    hide Once, Strip, RewrittenHeaders, Matches;
    var edits := Edits(RequestKind, pid);
    StripWithin(hs);
    StripIsSelect(hs);
    SelectHolds(hs, (h: Header) => Framing(h));
    forall h, e | h in Strip(hs) && e in edits
      ensures !Matches(h.name, e.name)
    {
      MatchesPrefix(h.name, e.name);
      FramingIsNotSet(h.name);
    }
    HeadRewritten(RequestKind, hs, pid);
    assert edits[0] in edits && edits[1] in edits && edits[2] in edits && edits[3] in edits;
  }

  lemma FramingIsNotSet(name: Bytes)
    requires NamePrefix(name, "Host") || NamePrefix(name, "Content-Length") || NamePrefix(name, "Transfer-Encoding")
    requires !NamePrefix(name, "Con")
    ensures !NamePrefix(name, "Connection") && !NamePrefix(name, "User-Agent")
         && !NamePrefix(name, "DNT") && !NamePrefix(name, "Sec-GPC")
  {
    FirstLetter(name);
    if NamePrefix(name, "Connection") {
      ContentAndConnection(name);
    }
  }

  lemma FirstLetter(name: Bytes)
    requires !NamePrefix(name, "Con")
    ensures name != []
    ensures forall t {:trigger NamePrefix(name, t)} :: t != [] && NamePrefix(name, t) ==> SameLetter(name[0], t[0])
  {
    assert name != [];
    forall t | t != [] && NamePrefix(name, t)
      ensures SameLetter(name[0], t[0])
    {
      PrefixLetter(name, t, 0);
    }
  }

  lemma PrefixLetter(name: Bytes, target: Bytes, i: nat)
    requires NamePrefix(name, target) && i < |name|
    ensures SameLetter(name[i], target[i])
  {
    assert target[..|name|][i] == target[i];
  }

  lemma ContentAndConnection(name: Bytes)
    requires NamePrefix(name, "Connection")
    requires NamePrefix(name, "Host") || NamePrefix(name, "Content-Length") || NamePrefix(name, "Transfer-Encoding")
    ensures NamePrefix(name, "Con")
  {
    if |name| > 3 {
      PrefixLetter(name, "Connection", 3);
      if NamePrefix(name, "Content-Length") {
        PrefixLetter(name, "Content-Length", 3);
      } else {
        PrefixLetter(name, "Connection", 0);
        assert false;
      }
      assert false;
    }
    if name != [] {
      PrefixLetter(name, "Connection", 0);
    }
    if NamePrefix(name, "Content-Length") || name == [] {
      assert "Connection"[..|name|] == "Con"[..|name|];
    } else {
      assert false;
    }
  }

  // What it sets in a response occurs once, if no name is a proper prefix of it.
  lemma ResponseSet(hs: seq<Header>, pid: Bytes)
    requires forall h :: h in hs ==> NUL !in h.name
    requires forall h, t :: h in hs && t in ["Connection", "Server", "X-Clacks-Overhead", "X-Proxy-PID"] ==>
                              NamePrefix(h.name, t) ==> |h.name| == |t|
    ensures var out := RewrittenHeaders(ResponseKind, hs, pid);
            && Once(out, "Connection", "close") && Once(out, "Server", "crash-tolerant-proxy")
            && Once(out, "X-Clacks-Overhead", "GNU Terry Pratchett") && Once(out, "X-Proxy-PID", pid)
  {
    hide Once, RewrittenHeaders, Matches, SameName;
    var edits := Edits(ResponseKind, pid);
    assert forall e :: e in edits ==> e.name in ["Connection", "Server", "X-Clacks-Overhead", "X-Proxy-PID"];
    assert Plain(hs, edits) by {
      hide Edits;
      forall h, e | h in hs && e in edits && Matches(h.name, e.name)
        ensures SameName(h.name, e.name)
      {
        MatchesPrefix(h.name, e.name);
        WholePrefix(h.name, e.name);
      }
    }
    HeadRewritten(ResponseKind, hs, pid);
    assert edits[0] in edits && edits[1] in edits && edits[2] in edits && edits[3] in edits;
  }

  lemma WholePrefix(name: Bytes, target: Bytes)
    requires NamePrefix(name, target) && |name| == |target|
    ensures SameName(name, target)
  {
    assert target[..|target|] == target;
  }

  // A reader finds the line, the headers and the end of the head.
  lemma HeadReadsBack(kind: Kind, head: Head, pid: Bytes)
    requires '\r' !in (match head case Request(m, path, _) => m + path case Response(_, reason, _) => reason) + pid
    requires forall h :: h in head.headers ==> '\r' !in h.name && '\r' !in h.value
    ensures var line := match head
              case Request(m, path, _) => m + " " + path + " HTTP/1.1"
              case Response(status, reason, _) => "HTTP/1.1 " + Decimal(status) + " " + reason;
            Split(RewrittenHead(kind, head, pid))
              == [line] + HeaderTexts(RewrittenHeaders(kind, head.headers, pid)) + [[], []]
  {
    hide Split, Message, Strip, HeaderTexts;
    var line := match head
      case Request(m, path, _) => m + " " + path + " HTTP/1.1"
      case Response(status, reason, _) => "HTTP/1.1 " + Decimal(status) + " " + reason;
    StripWithin(head.headers);
    EditsPlain(kind, pid);
    hide Edits;
    ReplaceAllNoBreaks(if kind == RequestKind then Strip(head.headers) else head.headers, Edits(kind, pid));
    hide ReplaceAll;
    MessageReadsBack(line, RewrittenHeaders(kind, head.headers, pid));
    assert line + "\r\n" == StatusLine(head);
  }

  // The calls of `strip_headers` and `replace_header` on one parsed head.
  method RewriteHeaders(kind: Kind, hs: seq<Header>, pid: Bytes) returns (out: seq<Header>)
    ensures out == RewrittenHeaders(kind, hs, pid)
  {
    hide Edits, Strip, Replace, ReplaceAll;
    var headers := new Header[|hs|](i requires 0 <= i < |hs| => hs[i]);
    assert headers[..] == headers[..|hs|] == hs;
    var num := |hs|;
    if kind == RequestKind {
      num := StripHeaders(headers, num);
    }
    ghost var kept := headers[..num];
    var edits := Edits(kind, pid);
    ReplaceNone(kept);
    assert edits[..0] == [];
    for i := 0 to |edits|
      invariant 0 <= num <= headers.Length && fresh(headers)
      invariant headers[..num] == ReplaceAll(kept, edits[..i])
    {
      ReplaceNext(kept, edits, i);
      headers, num := ReplaceHeader(headers, num, edits[i].name, edits[i].value);
    }
    assert edits[..|edits|] == edits;
    out := headers[..num];
  }

  lemma ReplaceNone(hs: seq<Header>)
    ensures ReplaceAll(hs, []) == hs
  {
  }

  lemma ReplaceNext(hs: seq<Header>, edits: seq<Header>, i: nat)
    requires i < |edits|
    ensures ReplaceAll(hs, edits[..i + 1]) == Replace(ReplaceAll(hs, edits[..i]), edits[i].name, edits[i].value)
  {
    hide Replace;
    assert edits[..i + 1][..i] == edits[..i];
  }

  // The whole output

  // What one direction sends in total for the input `whole`: the rewritten head
  // and the rest, or everything unchanged.
  ghost function Target(p: Protocol, pid: Bytes, whole: Bytes): Bytes
    requires PrefixStable(p)
  {
    match p.parse(Front(whole))
    case Accepted(n, head) =>
      var message := p.rewrite(head, pid);
      if |message| <= N then message + whole[n..] else whole
    case _ => whole
  }

  // -1: forward unchanged, 0: rewrite, 1: wait for more
  function EvalParseResult(r: ParseResult, len: nat, eof: bool, looksLike: bool): int {
    if r.Incomplete? then
      if len == N then -1 else if eof then -1 else if !looksLike then -1 else 1
    else if r.Malformed? then -1
    else 0
  }

  // Output and input of one direction after the head has been dealt with.
  datatype Stage = Stage(got: bool, out: Bytes, rest: Bytes)

  ghost function Staged(p: Protocol, pid: Bytes, got: bool, out: Bytes, rest: Bytes, eof: bool): Stage
    requires PrefixStable(p)
  {
    if got then Stage(true, out, rest)
    else
      var r := p.parse(rest);
      var verdict := EvalParseResult(r, |rest|, eof, LooksLike(p.kind, rest));
      if verdict == 1 then Stage(false, out, rest)
      else if verdict == 0 && |p.rewrite(r.head, pid)| <= N then
        Stage(true, p.rewrite(r.head, pid), rest[r.consumed..])
      else Stage(true, out, rest)
  }

  lemma AcceptedFits(p: Protocol, s: Bytes)
    requires PrefixStable(p)
    ensures p.parse(s).Accepted? ==>
              0 < p.parse(s).consumed <= |s| && (p.kind == RequestKind <==> p.parse(s).head.Request?)
  {
  }

  // Seeing more of the input does not lead to another decision.
  lemma DecisionStable(p: Protocol, rest: Bytes, seen: Bytes, eof: bool)
    requires PrefixStable(p) && rest <= seen && |seen| <= N
    requires |rest| == N || eof ==> seen == rest
    requires p.parse(seen).Accepted? ==> LooksLike(p.kind, seen)
    ensures var r := p.parse(rest);
            && (r.Accepted? ==> p.parse(seen) == r)
            && (EvalParseResult(r, |rest|, eof, LooksLike(p.kind, rest)) < 0 ==> !p.parse(seen).Accepted?)
  {
    var r := p.parse(rest);
    if r.Incomplete? && seen != rest && p.parse(seen).Accepted? {
      LooksLikePrefix(p.kind, rest, seen);
    }
  }

  // Forwarding is decided too early: what follows would have been rewritten.
  ghost predicate GivenUp(p: Protocol, seen: Bytes, s: Bytes) {
    && seen <= s && |s| <= N && p.parse(s).Accepted?
    && EvalParseResult(p.parse(seen), |seen|, false, LooksLike(p.kind, seen)) < 0
  }

  // The assumption is needed. A head is given up, depending on how the input is
  // split, exactly if it comes in two parts and the first does not look like one.
  lemma GivenUpExact(p: Protocol, seen: Bytes, s: Bytes)
    requires Consistent(p) && seen <= s && |s| <= N && p.parse(s).Accepted?
    ensures GivenUp(p, seen, s) <==> p.parse(seen).Incomplete? && !LooksLike(p.kind, seen)
  {
    if |seen| == N {
      assert seen == s;
    }
  }

  // As with a method in lower case, which the parser accepts.
  lemma LowerCaseGivenUp(p: Protocol, seen: Bytes, s: Bytes)
    requires Consistent(p) && p.kind == RequestKind && seen <= s && |s| <= N && p.parse(s).Accepted?
    requires p.parse(seen).Incomplete? && seen != [] && 'a' <= seen[0] <= 'z'
    ensures GivenUp(p, seen, s)
  {
    GivenUpExact(p, seen, s);
  }

  // The three verdicts.
  lemma StagedBy(p: Protocol, pid: Bytes, rest: Bytes, eof: bool)
    requires PrefixStable(p)
    ensures var r := p.parse(rest);
            var verdict := EvalParseResult(r, |rest|, eof, LooksLike(p.kind, rest));
            && (verdict > 0 <==> !Staged(p, pid, false, [], rest, eof).got) && (verdict > 0 ==> verdict == 1)
            && (verdict != 0 ==> Staged(p, pid, false, [], rest, eof) == Stage(verdict < 0, [], rest))
            && (verdict == 0 ==>
                  var message := p.rewrite(r.head, pid);
                  && r.Accepted? && r.consumed <= |rest|
                  && Staged(p, pid, false, [], rest, eof)
                     == if |message| <= N then Stage(true, message, rest[r.consumed..]) else Stage(true, [], rest))
  {
    hide LooksLike;
    AcceptedFits(p, rest);
  }

  // A head is waited for exactly while it is incomplete, looks like one, and both more
  // input and room for it may come.
  lemma WaitsExact(p: Protocol, pid: Bytes, out: Bytes, rest: Bytes, eof: bool)
    requires PrefixStable(p)
    ensures !Staged(p, pid, false, out, rest, eof).got
       <==> p.parse(rest).Incomplete? && |rest| != N && !eof && LooksLike(p.kind, rest)
  {
    hide LooksLike;
  }

  // The decision about the head, whenever it is made, is the one the whole input
  // determines: it does not depend on how the input was split.
  lemma StagedIsTarget(p: Protocol, pid: Bytes, rest: Bytes, eof: bool, unread: Bytes)
    requires PrefixStable(p) && |rest| <= N && (eof ==> unread == []) && HeadLooksLike(p, rest + unread)
    ensures var st := Staged(p, pid, false, [], rest, eof);
            st.got ==> st.out + st.rest + unread == Target(p, pid, rest + unread)
  {
    hide PrefixStable, LooksLike, Staged;
    var r := p.parse(rest);
    StagedBy(p, pid, rest, eof);
    var whole := rest + unread;
    var seen := Front(whole);
    assert eof ==> whole == rest;
    DecisionStable(p, rest, seen, eof);
    if r.Accepted? {
      DropFromSum(rest, unread, r.consumed);
    }
  }

  lemma DropFromSum(a: Bytes, b: Bytes, n: nat)
    requires n <= |a|
    ensures (a + b)[n..] == a[n..] + b
  {
  }

  // Writes the rewritten head to an empty buffer, or fails because it does not fit.
  method WriteHead(kind: Kind, head: Head, pid: Bytes, outBuf: array<char>) returns (n: int)
    requires outBuf.Length == N
    modifies outBuf
    ensures var message := RewrittenHead(kind, head, pid);
            if |message| <= N then n == |message| && outBuf[..n] == message else n == -1
  {
    hide StatusLine, RewrittenHeaders, Message;
    var headers := RewriteHeaders(kind, head.headers, pid);
    n := SerializeHttp(outBuf, headers, StatusLine(head));
  }

  // What parsing and rewriting the head does to the ranges (and to the free
  // part of `outBuf`).
  method HandleHead(p: Protocol, pid: Bytes, inBuf: array<char>, inRange: Range,
                    outBuf: array<char>, outRange: Range, eof: bool)
      returns (got: bool, in': Range, out': Range)
    requires PrefixStable(p) && RewritesHttp(p)
    requires inBuf.Length == outBuf.Length == N && inBuf != outBuf && Legal(inRange) && Legal(outRange)
    requires inRange.start == 0 && outRange.len == 0 && !outRange.shutdown
    modifies outBuf
    ensures Legal(in') && Legal(out') && in'.shutdown == inRange.shutdown && !out'.shutdown
    ensures var st := Staged(p, pid, false, [], Contents(inBuf[..], inRange), eof);
            && got == st.got
            && (!st.got ==> in' == inRange && out' == outRange)
            && Contents(outBuf[..], out') == st.out && Contents(inBuf[..], in') == st.rest
    ensures in' == inRange || TrimmedAhead(inRange, in')
  {
    hide PrefixStable, Contents, RequestLike, ResponseLike, RewrittenHead, At, TrimmedAhead, Staged;
    in', out' := inRange, outRange;
    var linear := LinearizeRingBuffer(inBuf, inRange);
    // The response is parsed in place.
    var text := if p.kind == RequestKind then linear else inBuf[inRange.start..inRange.start + inRange.len];
    assert text == linear;
    var parsed := p.parse(text);
    AcceptedFits(p, text);
    var looksLike;
    if p.kind == RequestKind {
      looksLike := LooksLikeHttpRequest(linear);
    } else {
      looksLike := LooksLikeHttpResponse(linear);
    }
    var verdict := EvalParseResult(parsed, inRange.len, eof, looksLike);
    StagedBy(p, pid, linear, eof);
    if verdict == 0 {
      var produced := WriteHead(p.kind, parsed.head, pid, outBuf);
      if produced >= 0 {
        LtrimByHand(inBuf[..], inRange, parsed.consumed);
        in' := inRange.(start := (inRange.start + parsed.consumed) % N, len := inRange.len - parsed.consumed);
        out' := Range(0, produced, false);
        FromTheStart(outBuf[..], out');
      }
    }
    got := verdict <= 0;
  }

  /**
  `transform` for one direction, on copies of the ranges. It writes nothing but
  the free part of `outBuf`.
  */
  method TransformDirection(p: Protocol, pid: Bytes, got: bool, inBuf: array<char>, inRange: Range,
                            outBuf: array<char>, outRange: Range, eof: bool, shutdown: bool)
      returns (got': bool, in': Range, out': Range, shutdown': bool)
    requires PrefixStable(p) && RewritesHttp(p)
    requires inBuf.Length == outBuf.Length == N && inBuf != outBuf && Legal(inRange) && Legal(outRange)
    requires !got ==> inRange.start == 0 && outRange.len == 0 && !outRange.shutdown
    modifies outBuf
    ensures Legal(in') && Legal(out') && in'.shutdown == inRange.shutdown && out'.shutdown == outRange.shutdown
    ensures var st := Staged(p, pid, got, Contents(old(outBuf[..]), outRange), Contents(inBuf[..], inRange), eof);
            && got' == st.got
            && (!st.got ==> in' == inRange && out' == outRange)
            && (st.got ==>
                  var room := N - |st.out|;
                  var k := if |st.rest| < room then |st.rest| else room;
                  && Contents(outBuf[..], out') == st.out + st.rest[..k]
                  && Contents(inBuf[..], in') == st.rest[k..])
            && (shutdown' <==> shutdown || (st.got && eof))
    ensures got' ==> TrimmedFrom(inRange, in')
    ensures outRange.len <= out'.len && (outRange.len > 0 ==> out'.start == outRange.start)
    ensures SameUsed(outBuf[..], old(outBuf[..]), outRange)
  {
    hide PrefixStable, Contents, RewrittenHead, RingBufferLtrim;
    got', in', out', shutdown' := got, inRange, outRange, shutdown;
    if !got {
      got', in', out' := HandleHead(p, pid, inBuf, inRange, outBuf, outRange, eof);
    }
    if got' {
      var moved;
      TrimmedAheadTwice(inRange, in');
      out', in', moved := RingBufferMove(outBuf, out', inBuf, in');
      if eof {
        shutdown' := true;
      }
    }
  }

  lemma FromTheStart(buf: Bytes, r: Range)
    requires |buf| == N && Legal(r) && r.start == 0
    ensures Contents(buf, r) == buf[..r.len]
  {
  }

  // As `TrimmedFrom`, without the return to the start of the buffer.
  ghost predicate TrimmedAhead(a: Range, t: Range) {
    && Legal(a) && Legal(t) && t.len <= a.len && t.shutdown == a.shutdown
    && t.start == At(a.start, a.len - t.len)
  }

  lemma TrimmedAheadTwice(a: Range, t: Range)
    requires Legal(a) && (t == a || TrimmedAhead(a, t))
    ensures forall k: nat {:trigger RingBufferLtrim(t, k)} :: TrimmedFrom(a, RingBufferLtrim(t, k))
  {
    forall k: nat
      ensures TrimmedFrom(a, RingBufferLtrim(t, k))
    {
      if k < t.len {
        AtIsMod(t.start, k);
      }
    }
  }

  // Advancing `start` and `len` over the head drops it.
  lemma LtrimByHand(buf: Bytes, r: Range, n: nat)
    requires |buf| == N && Legal(r) && n <= r.len && r.start == 0
    ensures var t := r.(start := (r.start + n) % N, len := r.len - n);
            Legal(t) && TrimmedAhead(r, t) && Contents(buf, t) == Contents(buf, r)[n..]
  {
    AtIsMod(r.start, n);
  }
}
