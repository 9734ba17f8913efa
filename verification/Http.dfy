/**
Rewriting one HTTP message head: which headers are kept, which are replaced, and
how the head is serialized. The parser (picohttpparser) is a parameter.
*/
module Http {
  import opened RingBuffer
  import opened Text

  datatype Header = Header(name: Bytes, value: Bytes)

  datatype Head =
    | Request(method_: Bytes, path: Bytes, headers: seq<Header>)
    | Response(status: nat, reason: Bytes, headers: seq<Header>)

  // Name matching

  function Lower(c: char): char {
    if 'A' <= c <= 'Z' then c - 'A' + 'a' else c
  }

  // `strncasecmp(name, target, name_len) == 0` for a NUL-terminated `target`.
  predicate Matches(name: Bytes, target: Bytes) {
    if name == [] then true
    else if target == [] then name[0] == NUL
    else Lower(name[0]) == Lower(target[0]) && Matches(name[1..], target[1..])
  }

  // The same character, or a letter in both cases (32 apart in ASCII).
  ghost predicate SameLetter(x: char, y: char) {
    || x == y
    || ('A' <= x <= 'Z' && y as int == x as int + 32)
    || ('A' <= y <= 'Z' && x as int == y as int + 32)
  }

  lemma LettersFold(x: char, y: char)
    ensures SameLetter(x, y) <==> Lower(x) == Lower(y)
  {
  }

  // Field names are equal without regard to case.
  ghost predicate SameName(a: Bytes, b: Bytes) {
    |a| == |b| && forall i :: 0 <= i < |a| ==> SameLetter(a[i], b[i])
  }

  ghost predicate NamePrefix(name: Bytes, target: Bytes) {
    |name| <= |target| && SameName(name, target[..|name|])
  }

  lemma {:induction false} SameNameTail(a: Bytes, b: Bytes)
    requires a != [] && b != []
    ensures SameName(a, b) <==> SameLetter(a[0], b[0]) && SameName(a[1..], b[1..])
  {
    if SameLetter(a[0], b[0]) && SameName(a[1..], b[1..]) {
      forall i | 0 <= i < |a|
        ensures SameLetter(a[i], b[i])
      {
        if i > 0 {
          assert SameLetter(a[1..][i - 1], b[1..][i - 1]);
        }
      }
    }
    if SameName(a, b) {
      forall i | 0 <= i < |a| - 1
        ensures SameLetter(a[1..][i], b[1..][i])
      {
        assert SameLetter(a[i + 1], b[i + 1]);
      }
    }
  }

  // The comparison stops after the header's own name, so besides the target it
  // accepts every prefix of the target.
  lemma {:induction false} MatchesPrefix(name: Bytes, target: Bytes)
    requires NUL !in name
    ensures Matches(name, target) <==> NamePrefix(name, target)
  {
    if name != [] {
      if target == [] {
        assert name[0] in name;
      } else {
        MatchesPrefix(name[1..], target[1..]);
        LettersFold(name[0], target[0]);
        if |name| <= |target| {
          SameNameTail(name, target[..|name|]);
          assert target[..|name|][1..] == target[1..][..|name| - 1];
        }
      }
    }
  }

  // Header lists

  predicate Kept(h: Header) {
    Matches(h.name, "Host") || Matches(h.name, "Content-Length") || Matches(h.name, "Transfer-Encoding")
  }

  function Strip(hs: seq<Header>): seq<Header> {
    if hs == [] then []
    else Strip(hs[..|hs| - 1]) + if Kept(hs[|hs| - 1]) then [hs[|hs| - 1]] else []
  }

  // The headers `target` does not match, in their order.
  function Others(hs: seq<Header>, target: Bytes): (r: seq<Header>) {
    if hs == [] then []
    else Others(hs[..|hs| - 1], target) + if Matches(hs[|hs| - 1].name, target) then [] else [hs[|hs| - 1]]
  }

  predicate Present(hs: seq<Header>, target: Bytes) {
    hs != [] && (Present(hs[..|hs| - 1], target) || Matches(hs[|hs| - 1].name, target))
  }

  // The first match gets the value, further matches go.
  function Substitute(hs: seq<Header>, target: Bytes, value: Bytes): (r: seq<Header>) {
    if hs == [] then []
    else
      var front, last := hs[..|hs| - 1], hs[|hs| - 1];
      Substitute(front, target, value)
      + if !Matches(last.name, target) then [last]
        else if Present(front, target) then []
        else [Header(last.name, value)]
  }

  function Replace(hs: seq<Header>, target: Bytes, value: Bytes): seq<Header> {
    if Present(hs, target) then Substitute(hs, target, value) else hs + [Header(target, value)]
  }

  lemma {:induction false} OthersConcat(a: seq<Header>, b: seq<Header>, target: Bytes)
    ensures Others(a + b, target) == Others(a, target) + Others(b, target)
  {
    hide Matches;
    if b == [] {
      assert a + b == a;
    } else {
      OthersConcat(a, b[..|b| - 1], target);
      assert (a + b)[..|a + b| - 1] == a + b[..|b| - 1];
    }
  }

  lemma {:induction false} SubstituteKeepsOthers(hs: seq<Header>, target: Bytes, value: Bytes)
    ensures Others(Substitute(hs, target, value), target) == Others(hs, target)
  {
    hide Matches;
    if hs != [] {
      var front, last := hs[..|hs| - 1], hs[|hs| - 1];
      SubstituteKeepsOthers(front, target, value);
      var tail := if !Matches(last.name, target) then [last]
        else if Present(front, target) then []
        else [Header(last.name, value)];
      OthersConcat(Substitute(front, target, value), tail, target);
      assert tail != [] ==> tail[..0] == [];
    }
  }

  lemma {:induction false} MatchesSelf(name: Bytes)
    ensures Matches(name, name)
  {
    if name != [] {
      MatchesSelf(name[1..]);
    }
  }

  // Replacing keeps every header the target does not match, in its order.
  lemma ReplaceKeepsOthers(hs: seq<Header>, target: Bytes, value: Bytes)
    ensures Others(Replace(hs, target, value), target) == Others(hs, target)
  {
    if Present(hs, target) {
      SubstituteKeepsOthers(hs, target, value);
    } else {
      MatchesSelf(target);
      OthersConcat(hs, [Header(target, value)], target);
      assert [Header(target, value)][..0] == [];
    }
  }

  // Exactly one header of a name

  ghost function Named(hs: seq<Header>, target: Bytes): seq<Header> {
    if hs == [] then []
    else Named(hs[..|hs| - 1], target) + if SameName(hs[|hs| - 1].name, target) then [hs[|hs| - 1]] else []
  }

  ghost predicate Once(hs: seq<Header>, target: Bytes, value: Bytes) {
    |Named(hs, target)| == 1 && Named(hs, target)[0].value == value
  }

  lemma {:induction false} NamedConcat(a: seq<Header>, b: seq<Header>, target: Bytes)
    ensures Named(a + b, target) == Named(a, target) + Named(b, target)
  {
    hide SameName;
    if b == [] {
      assert a + b == a;
    } else {
      NamedConcat(a, b[..|b| - 1], target);
      assert (a + b)[..|a + b| - 1] == a + b[..|b| - 1];
    }
  }

  lemma NamedOne(h: Header, target: Bytes)
    ensures Named([h], target) == if SameName(h.name, target) then [h] else []
  {
    assert [h][..0] == [];
  }

  // Matching looks at the name only up to case.
  lemma {:induction false} MatchesFolded(a: Bytes, b: Bytes, target: Bytes)
    requires SameName(a, b)
    ensures Matches(a, target) <==> Matches(b, target)
  {
    if a != [] {
      SameNameTail(a, b);
      LettersFold(a[0], b[0]);
      if target != [] {
        MatchesFolded(a[1..], b[1..], target[1..]);
      }
    }
  }

  lemma {:induction false} NamedInOthers(hs: seq<Header>, target: Bytes, other: Bytes)
    requires !Matches(target, other)
    ensures Named(Others(hs, other), target) == Named(hs, target)
  {
    if hs != [] {
      var front, last := hs[..|hs| - 1], hs[|hs| - 1];
      NamedInOthers(front, target, other);
      var tail := if Matches(last.name, other) then [] else [last];
      NamedConcat(Others(front, other), tail, target);
      NamedOne(last, target);
      if SameName(last.name, target) {
        MatchesFolded(last.name, target, other);
      }
    }
  }

  // Replacing one header does not disturb another.
  lemma ReplaceKeepsNamed(hs: seq<Header>, target: Bytes, other: Bytes, value: Bytes)
    requires !Matches(target, other)
    ensures Named(Replace(hs, other, value), target) == Named(hs, target)
  {
    ReplaceKeepsOthers(hs, other, value);
    NamedInOthers(hs, target, other);
    NamedInOthers(Replace(hs, other, value), target, other);
  }

  lemma {:induction false} ReplaceAllKeepsNamed(hs: seq<Header>, edits: seq<Header>, target: Bytes)
    requires forall e :: e in edits ==> !Matches(target, e.name)
    ensures Named(ReplaceAll(hs, edits), target) == Named(hs, target)
  {
    if edits != [] {
      var front, edit := edits[..|edits| - 1], edits[|edits| - 1];
      ReplaceAllKeepsNamed(hs, front, target);
      ReplaceKeepsNamed(ReplaceAll(hs, front), target, edit.name, edit.value);
    }
  }

  lemma ReplaceKeepsOnce(hs: seq<Header>, target: Bytes, value: Bytes, other: Bytes, value': Bytes)
    requires Once(hs, target, value) && !Matches(target, other)
    ensures Once(Replace(hs, other, value'), target, value)
  {
    ReplaceKeepsNamed(hs, target, other, value');
  }

  // Stripping keeps what has the name of a kept header.
  lemma {:induction false} StripKeepsNamed(hs: seq<Header>, target: Bytes)
    requires Kept(Header(target, []))
    ensures Named(Strip(hs), target) == Named(hs, target)
  {
    if hs != [] {
      var front, last := hs[..|hs| - 1], hs[|hs| - 1];
      StripKeepsNamed(front, target);
      NamedConcat(Strip(front), if Kept(last) then [last] else [], target);
      NamedOne(last, target);
      if SameName(last.name, target) {
        KeptFolded(last, target);
      }
    }
  }

  lemma KeptFolded(h: Header, target: Bytes)
    requires SameName(h.name, target)
    ensures Kept(h) == Kept(Header(target, []))
  {
    MatchesFolded(h.name, target, "Host");
    MatchesFolded(h.name, target, "Content-Length");
    MatchesFolded(h.name, target, "Transfer-Encoding");
  }

  function FirstMatch(hs: seq<Header>, target: Bytes): (h: Header)
    requires Present(hs, target)
    ensures h in hs && Matches(h.name, target)
  {
    var front := hs[..|hs| - 1];
    if Present(front, target) then FirstMatch(front, target) else hs[|hs| - 1]
  }

  lemma {:induction false} NoneNamed(hs: seq<Header>, target: Bytes)
    requires !Present(hs, target)
    ensures Named(hs, target) == []
  {
    if hs != [] {
      var front, last := hs[..|hs| - 1], hs[|hs| - 1];
      NoneNamed(front, target);
      MatchesSelf(target);
      if SameName(last.name, target) {
        MatchesFolded(last.name, target, target);
      }
    }
  }

  lemma {:induction false} NamedSubstitute(hs: seq<Header>, target: Bytes, value: Bytes)
    ensures Named(Substitute(hs, target, value), target)
         == if Present(hs, target) && SameName(FirstMatch(hs, target).name, target)
            then [Header(FirstMatch(hs, target).name, value)] else []
  {
    hide Matches, SameName;
    if hs != [] {
      var front, last := hs[..|hs| - 1], hs[|hs| - 1];
      NamedSubstitute(front, target, value);
      var tail := if !Matches(last.name, target) then [last]
        else if Present(front, target) then []
        else [Header(last.name, value)];
      NamedConcat(Substitute(front, target, value), tail, target);
      NamedOne(last, target);
      NamedOne(Header(last.name, value), target);
      MatchesSelf(target);
      if SameName(last.name, target) {
        MatchesFolded(last.name, target, target);
      }
    }
  }

  // `replace_header` leaves exactly one header of that name, with the value, if
  // and only if the first header it takes for one really has that name.
  lemma ReplaceOnce(hs: seq<Header>, target: Bytes, value: Bytes)
    ensures Once(Replace(hs, target, value), target, value)
       <==> (Present(hs, target) ==> SameName(FirstMatch(hs, target).name, target))
  {
    if Present(hs, target) {
      NamedSubstitute(hs, target, value);
    } else {
      NoneNamed(hs, target);
      NamedConcat(hs, [Header(target, value)], target);
      NamedOne(Header(target, value), target);
    }
  }

  // A header whose name is a proper prefix of the target takes its place.
  lemma ReplacePrefixName()
    ensures !Once(Replace([Header("Con", "x")], "Connection", "close"), "Connection", "close")
  {
    var hs := [Header("Con", "x")];
    MatchesPrefix("Con", "Connection");
    assert Matches(hs[0].name, "Connection");
    assert hs[..0] == [];
    assert FirstMatch(hs, "Connection") == hs[0];
    ReplaceOnce(hs, "Connection", "close");
  }

  // Chains of replacements

  function ReplaceAll(hs: seq<Header>, edits: seq<Header>): seq<Header> {
    if edits == [] then hs
    else
      var edit := edits[|edits| - 1];
      Replace(ReplaceAll(hs, edits[..|edits| - 1]), edit.name, edit.value)
  }

  function Untouched(hs: seq<Header>, edits: seq<Header>): seq<Header> {
    if edits == [] then hs
    else Others(Untouched(hs, edits[..|edits| - 1]), edits[|edits| - 1].name)
  }

  // No target is taken for another one.
  ghost predicate Independent(edits: seq<Header>) {
    forall i, j :: 0 <= i < |edits| && 0 <= j < |edits| && i != j ==> !Matches(edits[i].name, edits[j].name)
  }

  // No header name is empty or a proper prefix of a target.
  ghost predicate Plain(hs: seq<Header>, edits: seq<Header>) {
    forall h, e :: h in hs && e in edits && Matches(h.name, e.name) ==> SameName(h.name, e.name)
  }

  lemma {:induction false} OthersCommute(hs: seq<Header>, a: Bytes, b: Bytes)
    ensures Others(Others(hs, a), b) == Others(Others(hs, b), a)
  {
    if hs != [] {
      var front, last := hs[..|hs| - 1], hs[|hs| - 1];
      OthersCommute(front, a, b);
      OthersConcat(Others(front, a), if Matches(last.name, a) then [] else [last], b);
      OthersConcat(Others(front, b), if Matches(last.name, b) then [] else [last], a);
      assert [last][..0] == [];
      assert Others([last], a) == if Matches(last.name, a) then [] else [last];
      assert Others([last], b) == if Matches(last.name, b) then [] else [last];
    }
  }

  lemma {:induction false} UntouchedCommute(hs: seq<Header>, edits: seq<Header>, t: Bytes)
    ensures Others(Untouched(hs, edits), t) == Untouched(Others(hs, t), edits)
  {
    if edits != [] {
      UntouchedCommute(hs, edits[..|edits| - 1], t);
      OthersCommute(Untouched(hs, edits[..|edits| - 1]), edits[|edits| - 1].name, t);
    }
  }

  // A chain of replacements keeps all other headers in their order.
  lemma {:induction false} ReplaceAllKeepsUntouched(hs: seq<Header>, edits: seq<Header>)
    ensures Untouched(ReplaceAll(hs, edits), edits) == Untouched(hs, edits)
  {
    if edits != [] {
      var front, edit := edits[..|edits| - 1], edits[|edits| - 1];
      var inner := ReplaceAll(hs, front);
      ReplaceAllKeepsUntouched(hs, front);
      ReplaceKeepsOthers(inner, edit.name, edit.value);
      UntouchedCommute(ReplaceAll(hs, edits), front, edit.name);
      UntouchedCommute(inner, front, edit.name);
    }
  }

  // Every name in the result comes from the input or from an edit.
  lemma {:induction false} NamesAfterSubstitute(hs: seq<Header>, target: Bytes, value: Bytes)
    ensures forall h :: h in Substitute(hs, target, value) ==> exists g :: g in hs && g.name == h.name
  {
    if hs != [] {
      var front, last := hs[..|hs| - 1], hs[|hs| - 1];
      NamesAfterSubstitute(front, target, value);
      forall h | h in Substitute(hs, target, value)
        ensures exists g :: g in hs && g.name == h.name
      {
        if h in Substitute(front, target, value) {
          var g :| g in front && g.name == h.name;
          assert g in hs;
        } else {
          assert last in hs && last.name == h.name;
        }
      }
    }
  }

  lemma {:induction false} NamesAfterReplaceAll(hs: seq<Header>, edits: seq<Header>)
    ensures forall h :: h in ReplaceAll(hs, edits) ==> exists g :: g in hs + edits && g.name == h.name
  {
    if edits != [] {
      var front, edit := edits[..|edits| - 1], edits[|edits| - 1];
      var inner := ReplaceAll(hs, front);
      NamesAfterReplaceAll(hs, front);
      NamesAfterSubstitute(inner, edit.name, edit.value);
      forall h | h in ReplaceAll(hs, edits)
        ensures exists g :: g in hs + edits && g.name == h.name
      {
        if exists g :: g in inner && g.name == h.name {
          var g :| g in inner && g.name == h.name;
          var f :| f in hs + front && f.name == g.name;
          assert f in hs + edits;
        } else {
          assert edit in hs + edits && edit.name == h.name;
        }
      }
    } else {
      assert hs + edits == hs;
    }
  }

  lemma FirstMatchIsExact(hs: seq<Header>, edits: seq<Header>)
    requires edits != [] && Independent(edits) && Plain(hs, edits)
    ensures var inner, t := ReplaceAll(hs, edits[..|edits| - 1]), edits[|edits| - 1].name;
            Present(inner, t) ==> SameName(FirstMatch(inner, t).name, t)
  {
    var front, edit := edits[..|edits| - 1], edits[|edits| - 1];
    var inner := ReplaceAll(hs, front);
    NamesAfterReplaceAll(hs, front);
    if Present(inner, edit.name) {
      var h := FirstMatch(inner, edit.name);
      var g :| g in hs + front && g.name == h.name;
      forall f | f in front
        ensures !Matches(f.name, edit.name)
      {
        var i :| 0 <= i < |front| && front[i] == f;
        assert edits[i] == f;
      }
      assert g in hs && edit in edits;
    }
  }

  lemma FewerEdits(hs: seq<Header>, edits: seq<Header>)
    requires edits != [] && Independent(edits) && Plain(hs, edits)
    ensures Independent(edits[..|edits| - 1]) && Plain(hs, edits[..|edits| - 1])
    ensures forall e :: e in edits[..|edits| - 1] ==> !Matches(e.name, edits[|edits| - 1].name)
    ensures forall e :: e in edits ==> e in edits[..|edits| - 1] || e == edits[|edits| - 1]
  {
    var front := edits[..|edits| - 1];
    assert forall i :: 0 <= i < |front| ==> front[i] == edits[i];
    assert forall e :: e in front ==> e in edits;
  }

  // A chain of replacements leaves exactly one header per target, with its value.
  lemma {:induction false} ReplaceAllOnce(hs: seq<Header>, edits: seq<Header>)
    requires Independent(edits) && Plain(hs, edits)
    ensures forall e :: e in edits ==> Once(ReplaceAll(hs, edits), e.name, e.value)
  {
    hide Once, Replace, Matches, Plain, Independent, SameName;
    if edits != [] {
      var front, edit := edits[..|edits| - 1], edits[|edits| - 1];
      FewerEdits(hs, edits);
      ReplaceAllOnce(hs, front);
      FirstMatchIsExact(hs, edits);
      ReplaceOnce(ReplaceAll(hs, front), edit.name, edit.value);
      forall e | e in front
        ensures Once(ReplaceAll(hs, edits), e.name, e.value)
      {
        ReplaceKeepsOnce(ReplaceAll(hs, front), e.name, e.value, edit.name, edit.value);
      }
    }
  }

  // In-place versions

  /** Keeps `Host`, `Content-Length` and `Transfer-Encoding`. */
  method StripHeaders(headers: array<Header>, num: nat) returns (dst: nat)
    requires num <= headers.Length
    modifies headers
    ensures dst <= num && headers[..dst] == Strip(old(headers[..num]))
    // What is left is the headers whose name is, up to case, a prefix of one of the
    // three, all of them and in order.
    ensures (forall h :: h in old(headers[..num]) ==> NUL !in h.name) ==>
              headers[..dst] == Select(old(headers[..num]), (h: Header) => NamePrefix(h.name, "Host")
                                  || NamePrefix(h.name, "Content-Length") || NamePrefix(h.name, "Transfer-Encoding"))
  {
    dst := 0;
    for i := 0 to num
      invariant dst <= i
      invariant headers[..dst] == Strip(old(headers[..i]))
      invariant headers[i..num] == old(headers[i..num])
    {
      assert headers[i] == headers[i..num][0] == old(headers[i]);
      assert old(headers[..i + 1])[..i] == old(headers[..i]);
      assert headers[i + 1..num] == headers[i..num][1..];
      if Kept(headers[i]) {
        if i > dst {
          headers[dst] := headers[i];
        }
        dst := dst + 1;
        assert headers[..dst] == headers[..dst - 1] + [old(headers[i])];
      }
    }
    ghost var was := old(headers[..num]);
    if forall h :: h in was ==> NUL !in h.name {
      StripIsSelect(was);
      SelectSame(was, (h: Header) => Framing(h), (h: Header) => NamePrefix(h.name, "Host")
                       || NamePrefix(h.name, "Content-Length") || NamePrefix(h.name, "Transfer-Encoding"));
    }
  }

  // The headers that a condition holds of, in order.
  ghost function Select(hs: seq<Header>, keep: Header -> bool): seq<Header> {
    if hs == [] then []
    else Select(hs[..|hs| - 1], keep) + if keep(hs[|hs| - 1]) then [hs[|hs| - 1]] else []
  }

  lemma {:induction false} SelectSame(hs: seq<Header>, p: Header -> bool, q: Header -> bool)
    requires forall h :: h in hs ==> p(h) == q(h)
    ensures Select(hs, p) == Select(hs, q)
  {
    if hs != [] {
      assert hs[|hs| - 1] in hs;
      SelectSame(hs[..|hs| - 1], p, q);
    }
  }

  lemma {:induction false} SelectHolds(hs: seq<Header>, p: Header -> bool)
    ensures forall h :: h in Select(hs, p) ==> h in hs && p(h)
  {
    if hs != [] {
      SelectHolds(hs[..|hs| - 1], p);
    }
  }

  lemma {:induction false} SelectConcat(a: seq<Header>, b: seq<Header>, p: Header -> bool)
    ensures Select(a + b, p) == Select(a, p) + Select(b, p)
  {
    if b == [] {
      assert a + b == a;
    } else {
      SelectConcat(a, b[..|b| - 1], p);
      assert (a + b)[..|a + b| - 1] == a + b[..|b| - 1];
    }
  }

  lemma {:induction false} SelectTwice(hs: seq<Header>, p: Header -> bool, q: Header -> bool)
    ensures Select(Select(hs, p), q) == Select(hs, (h: Header) => p(h) && q(h))
  {
    if hs != [] {
      var front, last := hs[..|hs| - 1], hs[|hs| - 1];
      SelectTwice(front, p, q);
      var tail := if p(last) then [last] else [];
      SelectConcat(Select(front, p), tail, q);
      assert p(last) ==> tail[..0] == [] && Select(tail, q) == [] + if q(last) then [last] else [];
    }
  }

  // The three names `strip_headers` keeps, and what it takes for them.
  ghost predicate Framing(h: Header) {
    NamePrefix(h.name, "Host") || NamePrefix(h.name, "Content-Length") || NamePrefix(h.name, "Transfer-Encoding")
  }

  lemma {:induction false} StripIsSelect(hs: seq<Header>)
    requires forall h :: h in hs ==> NUL !in h.name
    ensures Strip(hs) == Select(hs, (h: Header) => Framing(h))
  {
    if hs != [] {
      var last := hs[|hs| - 1];
      StripIsSelect(hs[..|hs| - 1]);
      assert last in hs;
      MatchesPrefix(last.name, "Host");
      MatchesPrefix(last.name, "Content-Length");
      MatchesPrefix(last.name, "Transfer-Encoding");
    }
  }

  lemma {:induction false} OthersIsSelect(hs: seq<Header>, target: Bytes)
    ensures Others(hs, target) == Select(hs, (h: Header) => !Matches(h.name, target))
  {
    if hs != [] {
      OthersIsSelect(hs[..|hs| - 1], target);
    }
  }

  ghost function NoneOf(edits: seq<Header>): Header -> bool {
    (h: Header) => forall e :: e in edits ==> !Matches(h.name, e.name)
  }

  lemma OneMoreEdit(hs: seq<Header>, edits: seq<Header>)
    requires edits != []
    ensures Others(Select(hs, NoneOf(edits[..|edits| - 1])), edits[|edits| - 1].name) == Select(hs, NoneOf(edits))
  {
    hide Matches;
    var front, edit := edits[..|edits| - 1], edits[|edits| - 1];
    var p, q := NoneOf(front), (h: Header) => !Matches(h.name, edit.name);
    OthersIsSelect(Select(hs, p), edit.name);
    SelectTwice(hs, p, q);
    assert forall e :: e in edits <==> e in front || e == edit;
    SelectSame(hs, (h: Header) => p(h) && q(h), NoneOf(edits));
  }

  lemma {:induction false} UntouchedIsSelect(hs: seq<Header>, edits: seq<Header>)
    ensures Untouched(hs, edits) == Select(hs, NoneOf(edits))
  {
    hide Matches;
    if edits == [] {
      SelectAll(hs, NoneOf(edits));
    } else {
      UntouchedIsSelect(hs, edits[..|edits| - 1]);
      OneMoreEdit(hs, edits);
    }
  }

  lemma {:induction false} SelectAll(hs: seq<Header>, p: Header -> bool)
    requires forall h :: h in hs ==> p(h)
    ensures Select(hs, p) == hs
  {
    if hs != [] {
      assert hs[|hs| - 1] in hs;
      SelectAll(hs[..|hs| - 1], p);
    }
  }

  lemma {:induction false} SubstituteAbsent(hs: seq<Header>, target: Bytes, value: Bytes)
    requires !Present(hs, target)
    ensures Substitute(hs, target, value) == hs
  {
    if hs != [] {
      SubstituteAbsent(hs[..|hs| - 1], target, value);
    }
  }

  /** Gives the first header matching `name` the value and removes the others, or appends one. */
  method ReplaceHeader(headers: array<Header>, num: nat, name: Bytes, value: Bytes) returns (out: array<Header>, dst: nat)
    requires num <= headers.Length
    modifies headers
    ensures out == headers || fresh(out)
    ensures dst <= out.Length && out[..dst] == Replace(old(headers[..num]), name, value)
  {
    hide Matches;
    dst := 0;
    var replaced := false;
    for i := 0 to num
      invariant dst <= i
      invariant replaced <==> Present(old(headers[..i]), name)
      invariant !replaced ==> dst == i
      invariant headers[..dst] == Substitute(old(headers[..i]), name, value)
      invariant headers[i..num] == old(headers[i..num])
    {
      ghost var seen := old(headers[..i + 1]);
      assert seen[..i] == old(headers[..i]);
      assert headers[i] == headers[i..num][0] == seen[i];
      assert headers[i + 1..num] == headers[i..num][1..];
      if !Matches(headers[i].name, name) {
        headers[dst] := headers[i];
        dst := dst + 1;
        assert headers[..dst] == headers[..dst - 1] + [seen[i]];
      } else if !replaced {
        headers[dst] := Header(headers[i].name, value);
        dst := dst + 1;
        replaced := true;
        assert headers[..dst] == headers[..dst - 1] + [Header(seen[i].name, value)];
      }
    }
    if replaced {
      return headers, dst;
    }
    SubstituteAbsent(old(headers[..num]), name, value);
    out := AppendHeader(headers, dst, num, Header(name, value));
    dst := dst + 1;
  }

  // The last part of `replace_header`: room for one more header, which goes to index `dst`.
  method AppendHeader(headers: array<Header>, dst: nat, num: nat, h: Header) returns (out: array<Header>)
    requires dst <= num <= headers.Length
    modifies headers
    ensures out == headers || fresh(out)
    ensures dst < out.Length && out[..dst + 1] == old(headers[..dst]) + [h]
  {
    out := headers;
    if dst >= num {
      out := new Header[dst + 1](i requires 0 <= i <= dst reads headers =>
        if i < dst && i < headers.Length then headers[i] else h);
    }
    out[dst] := h;
    assert out[..dst + 1] == old(headers[..dst]) + [h];
  }

  // Serializing

  const CRLF: Bytes := "\r\n"

  function HeaderLines(hs: seq<Header>): Bytes {
    if hs == [] then []
    else
      var h := hs[|hs| - 1];
      HeaderLines(hs[..|hs| - 1]) + (h.name + ": " + h.value + CRLF)
  }

  function Message(line: Bytes, hs: seq<Header>): Bytes {
    line + HeaderLines(hs) + CRLF
  }

  method AppendBytes(buf: array<char>, p: nat, s: Bytes) returns (q: int)
    requires p <= buf.Length
    modifies buf
    ensures if p + |s| <= buf.Length then q == p + |s| && buf[..q] == old(buf[..p]) + s
            else q == -1
  {
    if buf.Length - p < |s| {
      return -1;
    }
    Memcpy(buf, p, s, 0, |s|);
    q := p + |s|;
    assert buf[..q] == old(buf[..p]) + s;
  }

  method AppendHeaderLine(buf: array<char>, p: nat, h: Header) returns (q: int)
    requires p <= buf.Length
    modifies buf
    ensures var line := h.name + ": " + h.value + CRLF;
            if p + |line| <= buf.Length then q == p + |line| && buf[..q] == old(buf[..p]) + line
            else q == -1
  {
    q := AppendBytes(buf, p, h.name);
    if q < 0 { return -1; }
    q := AppendBytes(buf, q, ": ");
    if q < 0 { return -1; }
    q := AppendBytes(buf, q, h.value);
    if q < 0 { return -1; }
    q := AppendBytes(buf, q, CRLF);
  }

  /** Writes the whole message, or fails because it does not fit. */
  method SerializeHttp(buf: array<char>, headers: seq<Header>, line: Bytes) returns (n: int)
    requires buf.Length > 0
    modifies buf
    ensures if |Message(line, headers)| <= buf.Length
            then n == |Message(line, headers)| && buf[..n] == Message(line, headers)
            else n == -1
    // Read back line by line: the first line, `name: value` of each header in order,
    // an empty line and nothing behind it.
    ensures && n >= 0 && |line| >= 2 && line[|line| - 2..] == "\r\n" && '\r' !in line[..|line| - 2]
            && (forall h :: h in headers ==> '\r' !in h.name && '\r' !in h.value) ==>
              Split(buf[..n]) == [line[..|line| - 2]]
                 + seq(|headers|, i requires 0 <= i < |headers| => headers[i].name + ": " + headers[i].value) + [[], []]
  {
    hide HeaderLines, Split, Message;
    NoLines();
    MessageIs(line, headers);
    var size := Snprintf(buf, 0, line);
    assert size < buf.Length ==> buf[..size] == buf[0..size + 1][..size] == line;
    if size > buf.Length {
      return -1;
    }
    n := size;
    for i := 0 to |headers|
      invariant |line| <= n <= buf.Length && n == |line| + |HeaderLines(headers[..i])|
      // A status line that fills the buffer is cut off; then the final CRLF cannot fit.
      invariant |line| < buf.Length ==> buf[..n] == line + HeaderLines(headers[..i])
    {
      NextLine(headers, i);
      LongerLines(headers, i + 1);
      MessageIs(line, headers);
      n := AppendHeaderLine(buf, n, headers[i]);
      if n < 0 { return -1; }
    }
    assert headers[..|headers|] == headers;
    n := AppendBytes(buf, n, CRLF);
    MessageIs(line, headers);
    if |line| >= 2 && line[|line| - 2..] == "\r\n" && '\r' !in line[..|line| - 2]
       && (forall h :: h in headers ==> '\r' !in h.name && '\r' !in h.value) {
      MessageReadsBack(line[..|line| - 2], headers);
      assert line[..|line| - 2] + "\r\n" == line;
    }
  }

  lemma MessageIs(line: Bytes, hs: seq<Header>)
    ensures Message(line, hs) == line + HeaderLines(hs) + CRLF
  {
  }

  // Reading a message

  // The pieces between the line breaks.
  ghost function Split(s: Bytes): (r: seq<Bytes>)
    ensures r != []
  {
    if s == [] then [[]]
    else if |s| >= 2 && s[0] == '\r' && s[1] == '\n' then [[]] + Split(s[2..])
    else
      var r := Split(s[1..]);
      [[s[0]] + r[0]] + r[1..]
  }

  ghost predicate NoBreaks(hs: seq<Header>) {
    forall h :: h in hs ==> '\r' !in h.name && '\r' !in h.value
  }

  ghost function HeaderTexts(hs: seq<Header>): seq<Bytes> {
    seq(|hs|, i requires 0 <= i < |hs| => hs[i].name + ": " + hs[i].value)
  }

  lemma {:induction false} SubstituteNoBreaks(hs: seq<Header>, target: Bytes, value: Bytes)
    requires NoBreaks(hs) && '\r' !in value
    ensures NoBreaks(Substitute(hs, target, value))
  {
    hide Matches;
    if hs != [] {
      SubstituteNoBreaks(hs[..|hs| - 1], target, value);
    }
  }

  lemma {:induction false} ReplaceAllNoBreaks(hs: seq<Header>, edits: seq<Header>)
    requires NoBreaks(hs) && NoBreaks(edits)
    ensures NoBreaks(ReplaceAll(hs, edits))
  {
    if edits != [] {
      var edit := edits[|edits| - 1];
      ReplaceAllNoBreaks(hs, edits[..|edits| - 1]);
      SubstituteNoBreaks(ReplaceAll(hs, edits[..|edits| - 1]), edit.name, edit.value);
    }
  }

  lemma {:induction false} StripWithin(hs: seq<Header>)
    ensures forall h :: h in Strip(hs) ==> h in hs
  {
    hide Kept;
    if hs != [] {
      StripWithin(hs[..|hs| - 1]);
    }
  }

  lemma {:induction false} SplitLine(line: Bytes, rest: Bytes)
    requires '\r' !in line
    ensures Split(line + "\r\n" + rest) == [line] + Split(rest)
  {
    var s := line + "\r\n" + rest;
    if line == [] {
      assert s[2..] == rest;
    } else {
      SplitLine(line[1..], rest);
      assert line[0] in line && s[0] == line[0];
      assert s[1..] == line[1..] + "\r\n" + rest;
      assert [line[0]] + line[1..] == line;
    }
  }

  lemma SplitHeader(h: Header, rest: Bytes)
    requires '\r' !in h.name && '\r' !in h.value
    ensures Split((h.name + ": " + h.value + CRLF) + rest) == [h.name + ": " + h.value] + Split(rest)
  {
    hide Split;
    SplitLine(h.name + ": " + h.value, rest);
  }

  lemma {:induction false} SplitHeaders(hs: seq<Header>, rest: Bytes)
    requires NoBreaks(hs)
    ensures Split(HeaderLines(hs) + rest) == HeaderTexts(hs) + Split(rest)
  {
    hide Split;
    if hs == [] {
      assert HeaderLines(hs) + rest == rest;
    } else {
      var front, h := hs[..|hs| - 1], hs[|hs| - 1];
      var text := h.name + ": " + h.value + CRLF;
      SplitHeaders(front, text + rest);
      SplitHeader(h, rest);
      assert HeaderLines(hs) + rest == HeaderLines(front) + (text + rest);
      assert HeaderTexts(hs) == HeaderTexts(front) + [h.name + ": " + h.value];
    }
  }

  lemma MessageReadsBack(line: Bytes, hs: seq<Header>)
    requires '\r' !in line && NoBreaks(hs)
    ensures Split(Message(line + "\r\n", hs)) == [line] + HeaderTexts(hs) + [[], []]
  {
    SplitNothing();
    hide Split;
    SplitHeaders(hs, CRLF);
    SplitLine(line, HeaderLines(hs) + CRLF);
    SplitLine([], []);
    assert [] + "\r\n" + [] == CRLF;
    assert Message(line + "\r\n", hs) == line + "\r\n" + (HeaderLines(hs) + CRLF);
  }

  lemma SplitNothing()
    ensures Split([]) == [[]]
  {
  }

  lemma NoLines()
    ensures HeaderLines([]) == []
  {
  }

  lemma NextLine(hs: seq<Header>, i: nat)
    requires i < |hs|
    ensures HeaderLines(hs[..i + 1]) == HeaderLines(hs[..i]) + (hs[i].name + ": " + hs[i].value + CRLF)
  {
    assert hs[..i + 1][..i] == hs[..i];
  }

  lemma LongerLines(hs: seq<Header>, i: nat)
    requires i <= |hs|
    ensures |HeaderLines(hs[..i])| <= |HeaderLines(hs)|
    decreases |hs|
  {
    if i < |hs| {
      assert hs[..|hs| - 1][..i] == hs[..i];
      LongerLines(hs[..|hs| - 1], i);
    } else {
      assert hs[..i] == hs;
    }
  }
}
