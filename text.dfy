/**
  String operations of Rust's `str` that the status line relies on, written
  over `seq<char>`: prefix and suffix tests, substring search, splitting on a
  character or on a pattern, joining, whitespace trimming, `lines()`, and the
  decimal rendering and parsing of integers.
 */
module Text {
  import opened Wrappers

  predicate StartsWith(s: string, prefix: string) {
    |prefix| <= |s| && s[..|prefix|] == prefix
  }

  predicate EndsWith(s: string, suffix: string) {
    |suffix| <= |s| && s[|s| - |suffix|..] == suffix
  }

  /** `pat` occurs in `s` at position `k`. */
  predicate MatchesAt(s: string, pat: string, k: nat) {
    k + |pat| <= |s| && s[k..k + |pat|] == pat
  }

  /** Index of the first occurrence of `pat` in `s` (Rust's `str::find`). */
  function Find(s: string, pat: string): (r: Option<nat>)
    ensures r.Some? ==> r.value + |pat| <= |s|
    decreases |s|
  {
    if |s| < |pat| then None
    else if s[..|pat|] == pat then Some(0)
    else
      match Find(s[1..], pat)
      case None => None
      case Some(i) => Some(i + 1)
  }

  /** `Find` gives the first position where `pat` occurs, and None only when it does not occur. */
  lemma {:induction false} FindIsFirstMatch(s: string, pat: string)
    ensures Find(s, pat).Some? ==> MatchesAt(s, pat, Find(s, pat).value)
    ensures Find(s, pat).Some? ==> forall k: nat :: k < Find(s, pat).value ==> !MatchesAt(s, pat, k)
    ensures Find(s, pat).None? ==> forall k: nat :: !MatchesAt(s, pat, k)
    decreases |s|
  {
    if |s| >= |pat| && s[..|pat|] != pat {
      FindIsFirstMatch(s[1..], pat);
      assert forall k: nat :: MatchesAt(s, pat, k + 1) <==> MatchesAt(s[1..], pat, k) by {
        forall k: nat ensures MatchesAt(s, pat, k + 1) <==> MatchesAt(s[1..], pat, k) {
          if k + 1 + |pat| <= |s| {
            var t := s[1..];
            var u, w := s[k + 1..k + 1 + |pat|], t[k..k + |pat|];
            assert forall j :: 0 <= j < |pat| ==> u[j] == w[j];
            assert u == w;
          }
        }
      }
      assert !MatchesAt(s, pat, 0);
      assert forall k: nat :: k >= 1 ==> (MatchesAt(s, pat, k) <==> MatchesAt(s[1..], pat, k - 1)) by {
        forall k: nat | k >= 1 ensures MatchesAt(s, pat, k) <==> MatchesAt(s[1..], pat, k - 1) {
          assert MatchesAt(s, pat, (k - 1) + 1) <==> MatchesAt(s[1..], pat, k - 1);
        }
      }
    } else if |s| < |pat| {
      assert forall k: nat :: !MatchesAt(s, pat, k);
    }
  }

  predicate Contains(s: string, pat: string) {
    Find(s, pat).Some?
  }

  /**
    `s.split(pat).nth(1)` for a non-empty pattern: the text between the first
    occurrence of `pat` and the next one (or the end), or None when `pat`
    does not occur.
   */
  function SecondPiece(s: string, pat: string): (r: Option<string>)
    requires pat != []
    ensures r.Some? <==> Contains(s, pat)
  {
    match Find(s, pat)
    case None => None
    case Some(i) =>
      var rest := s[i + |pat|..];
      match Find(rest, pat)
      case None => Some(rest)
      case Some(j) => Some(rest[..j])
  }

  /** Position of the first `c` in `s`. */
  function FirstIndexOf(s: string, c: char): (i: nat)
    requires c in s
    ensures i < |s| && s[i] == c && c !in s[..i]
  {
    if s[0] == c then 0 else FirstIndexOf(s[1..], c) + 1
  }

  /** Any position holding the first `c` is the one `FirstIndexOf` finds. */
  lemma FirstIndexOfUnique(s: string, c: char, k: nat)
    requires k < |s| && s[k] == c && c !in s[..k]
    ensures FirstIndexOf(s, c) == k
  {
    var i := FirstIndexOf(s, c);
    forall j | 0 <= j < k ensures s[j] != c {
      assert s[..k][j] == s[j];
    }
    forall j | 0 <= j < i ensures s[j] != c {
      assert s[..i][j] == s[j];
    }
  }

  /** `s.split(sep)` for a single character: never empty, no part holds `sep`. */
  function Split(s: string, sep: char): (parts: seq<string>)
    ensures |parts| >= 1
    ensures forall p :: p in parts ==> sep !in p
    decreases |s|
  {
    if sep !in s then [s]
    else
      var i := FirstIndexOf(s, sep);
      [s[..i]] + Split(s[i + 1..], sep)
  }

  /** `parts.join(sep)`. */
  function Join(parts: seq<string>, sep: string): string
    decreases |parts|
  {
    if |parts| == 0 then ""
    else if |parts| == 1 then parts[0]
    else parts[0] + sep + Join(parts[1..], sep)
  }

  /** The last element of a split (`split(..).next_back()`, never None). */
  function Last(parts: seq<string>): string
    requires |parts| >= 1
  {
    parts[|parts| - 1]
  }

  /** `iter.nth(n).unwrap_or("")`. */
  function Field(parts: seq<string>, n: nat): string {
    if n < |parts| then parts[n] else ""
  }

  lemma SplitCons(a: string, sep: char, b: string)
    requires sep !in a
    ensures Split(a + [sep] + b, sep) == [a] + Split(b, sep)
  {
    var s := a + [sep] + b;
    assert s[|a|] == sep;
    var i := FirstIndexOf(s, sep);
    assert s[..i] == a;
    assert s[i + 1..] == b;
  }

  /** Splitting undoes joining when no part holds the separator. */
  lemma {:induction false} SplitJoin(parts: seq<string>, sep: char)
    requires |parts| >= 1
    requires forall p :: p in parts ==> sep !in p
    ensures Split(Join(parts, [sep]), sep) == parts
    decreases |parts|
  {
    if |parts| > 1 {
      assert parts[0] in parts;
      assert forall p :: p in parts[1..] ==> p in parts;
      SplitJoin(parts[1..], sep);
      assert Join(parts, [sep]) == parts[0] + [sep] + Join(parts[1..], [sep]);
      SplitCons(parts[0], sep, Join(parts[1..], [sep]));
      assert parts == [parts[0]] + parts[1..];
    } else {
      assert parts[0] in parts;
    }
  }

  lemma {:induction false} JoinExcludes(parts: seq<string>, sep: string, c: char)
    requires c !in sep
    requires forall p :: p in parts ==> c !in p
    ensures c !in Join(parts, sep)
    decreases |parts|
  {
    if |parts| > 1 {
      assert parts[0] in parts;
      assert forall p :: p in parts[1..] ==> p in parts;
      JoinExcludes(parts[1..], sep, c);
    } else if |parts| == 1 {
      assert parts[0] in parts;
    }
  }

  /** Rust's `char::is_whitespace`: the Unicode White_Space property. */
  predicate IsWhitespace(c: char) {
    || ('\t' <= c <= '\r')
    || c == ' '
    || c == '\U{85}'
    || c == '\U{A0}'
    || c == '\U{1680}'
    || ('\U{2000}' <= c <= '\U{200A}')
    || c == '\U{2028}'
    || c == '\U{2029}'
    || c == '\U{202F}'
    || c == '\U{205F}'
    || c == '\U{3000}'
  }

  function TrimStart(s: string): (r: string)
    ensures |r| <= |s| && r == s[|s| - |r|..]
    ensures r != [] ==> !IsWhitespace(r[0])
    ensures forall k :: 0 <= k < |s| - |r| ==> IsWhitespace(s[k])
  {
    if s != [] && IsWhitespace(s[0]) then TrimStart(s[1..]) else s
  }

  function TrimEnd(s: string): (r: string)
    ensures |r| <= |s| && r == s[..|r|]
    ensures r != [] ==> !IsWhitespace(r[|r| - 1])
    ensures forall k :: |r| <= k < |s| ==> IsWhitespace(s[k])
  {
    if s != [] && IsWhitespace(s[|s| - 1]) then TrimEnd(s[..|s| - 1]) else s
  }

  /** Rust's `str::trim`. */
  function Trim(s: string): string {
    TrimEnd(TrimStart(s))
  }

  function StripCR(line: string): string {
    if line != [] && line[|line| - 1] == '\r' then line[..|line| - 1] else line
  }

  /**
    Rust's `str::lines`: split at `\n`, drop a `\r` that ends a terminated
    line, and yield no final empty line after a trailing `\n`.
   */
  function Lines(s: string): (ls: seq<string>)
    ensures s == [] <==> ls == []
    decreases |s|
  {
    if s == [] then []
    else if '\n' !in s then [s]
    else
      var i := FirstIndexOf(s, '\n');
      [StripCR(s[..i])] + Lines(s[i + 1..])
  }

  // ---- decimal integers -------------------------------------------------

  predicate IsDigit(c: char) {
    '0' <= c <= '9'
  }

  function DigitChar(d: nat): (c: char)
    requires d < 10
    ensures IsDigit(c)
  {
    ['0', '1', '2', '3', '4', '5', '6', '7', '8', '9'][d]
  }

  function DigitValue(c: char): (d: nat)
    requires IsDigit(c)
    ensures d < 10
  {
    (c as int - '0' as int) as nat
  }

  lemma DigitRoundTrip(d: nat)
    requires d < 10
    ensures DigitValue(DigitChar(d)) == d
  {
  }

  /** Decimal rendering of a natural number, as Rust's `to_string`/`{}`. */
  function NatToString(n: nat): (s: string)
    ensures |s| >= 1
    ensures forall c :: c in s ==> IsDigit(c)
    decreases n
  {
    if n < 10 then [DigitChar(n)] else NatToString(n / 10) + [DigitChar(n % 10)]
  }

  predicate AllDigits(s: string) {
    forall c :: c in s ==> IsDigit(c)
  }

  /** The value of a digit string, most significant digit first. */
  function DigitsValue(s: string): nat
    requires AllDigits(s)
    decreases |s|
  {
    if s == [] then 0
    else
      assert forall c :: c in s[..|s| - 1] ==> c in s;
      DigitsValue(s[..|s| - 1]) * 10 + DigitValue(s[|s| - 1])
  }

  lemma {:induction false} DigitsOfNatToString(n: nat)
    ensures DigitsValue(NatToString(n)) == n
    decreases n
  {
    var s := NatToString(n);
    if n < 10 {
      DigitRoundTrip(n);
    } else {
      DigitsOfNatToString(n / 10);
      DigitRoundTrip(n % 10);
      assert s[..|s| - 1] == NatToString(n / 10);
    }
  }

  const I32Min: int := -0x8000_0000
  const I32Max: int := 0x7FFF_FFFF
  const I64Min: int := -0x8000_0000_0000_0000
  const I64Max: int := 0x7FFF_FFFF_FFFF_FFFF

  /**
    Rust's `str::parse::<i32>`: an optional `+` or `-`, then one or more
    ASCII digits, with the value inside the i32 range.
   */
  function ParseI32(s: string): (r: Option<int>)
    ensures r.Some? ==> I32Min <= r.value <= I32Max
  {
    var negative := s != [] && s[0] == '-';
    var digits := if s != [] && (s[0] == '-' || s[0] == '+') then s[1..] else s;
    if digits == [] || !AllDigits(digits) then None
    else
      var v: int := if negative then 0 - DigitsValue(digits) as int else DigitsValue(digits);
      if I32Min <= v <= I32Max then Some(v) else None
  }

  /** Parsing gives back what rendering produced. */
  lemma ParseNatToString(n: nat)
    requires n <= I32Max
    ensures ParseI32(NatToString(n)) == Some(n)
  {
    DigitsOfNatToString(n);
    var s := NatToString(n);
    assert IsDigit(s[0]);
  }
}
