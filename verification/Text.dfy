/**
C strings and decimal numbers.
*/
module Text {
  import opened RingBuffer

  const NUL: char := '\0'

  // `%d` and `%zu`
  function Decimal(n: nat): (r: Bytes)
    ensures r != [] && (forall c :: c in r ==> '0' <= c <= '9')
    ensures r[0] == '0' ==> n == 0 && r == "0"
  {
    (if n < 10 then [] else Decimal(n / 10)) + ['0' + (n % 10) as char]
  }

  predicate IsDigit(c: char) {
    '0' <= c <= '9'
  }

  // The value of a string of digits.
  function Value(s: Bytes): nat
    requires forall c :: c in s ==> IsDigit(c)
  {
    if s == [] then 0
    else
      assert IsDigit(s[|s| - 1]);
      10 * Value(s[..|s| - 1]) + (s[|s| - 1] - '0') as nat
  }

  lemma {:induction false} DecimalReadsBack(n: nat)
    ensures Value(Decimal(n)) == n
  {
    var d := '0' + (n % 10) as char;
    if n >= 10 {
      DecimalReadsBack(n / 10);
      assert Decimal(n)[..|Decimal(n)| - 1] == Decimal(n / 10);
    } else {
      assert Decimal(n)[..0] == [];
    }
  }

  // The string a buffer holds from `at`, up to its NUL byte.
  function CString(s: Bytes, at: nat): (r: Bytes)
    requires at <= |s|
    ensures NUL !in r && at + |r| <= |s| && r == s[at..at + |r|] && (at + |r| < |s| ==> s[at + |r|] == NUL)
    decreases |s| - at
  {
    if at == |s| || s[at] == NUL then [] else [s[at]] + CString(s, at + 1)
  }

  lemma {:induction false} CStringIs(s: Bytes, at: nat, t: Bytes)
    requires at + |t| < |s| && s[at..at + |t|] == t && NUL !in t && s[at + |t|] == NUL
    ensures CString(s, at) == t
    decreases |t|
  {
    if t != [] {
      assert s[at] == t[0];
      assert s[at + 1..at + 1 + |t[1..]|] == t[1..];
      CStringIs(s, at + 1, t[1..]);
    }
  }

  // `snprintf` and `vsnprintf` to `at`: writes what fits in front of a NUL, returns the full length.
  method Snprintf(buf: array<char>, at: nat, text: Bytes) returns (n: nat)
    requires at <= buf.Length
    modifies buf
    ensures n == |text| && buf[..at] == old(buf[..at])
    ensures at + n < buf.Length ==> buf[at..at + n + 1] == text + [NUL]
  {
    n := |text|;
    if at < buf.Length {
      var fits := if n < buf.Length - at then n else buf.Length - at - 1;
      forall k | 0 <= k < fits {
        buf[at + k] := text[k];
      }
      buf[at + fits] := NUL;
    }
  }
}
