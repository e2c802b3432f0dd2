/**
  The git status fragment (`get_git_status`): ahead and behind counts from
  the tracking line of `git status --porcelain --branch`, one dirty marker
  and a stash marker. Both command outputs are parameters, as `exec_git`
  returns them (trimmed stdout, or "" when the command fails).
 */
module GitStatus {
  import opened Wrappers
  import opened Text

  const AheadTag: string := "[ahead "
  const BehindTag: string := "behind "
  const AheadMark: string := " ⇡"
  const BehindMark: string := " ⇣"
  const DirtyMark: string := " *"
  const StashMark: string := " ≡"

  /** `s.split(|c| c in stops).next()`: the text before the first stop character. */
  function UpTo(s: string, stops: set<char>): (r: string)
    ensures StartsWith(s, r)
    ensures forall c :: c in r ==> c !in stops
    ensures |r| == |s| || s[|r|] in stops
  {
    if s == [] || s[0] in stops then "" else [s[0]] + UpTo(s[1..], stops)
  }

  /**
    A positive count parsed as an i32; zero, negative or unparsable gives
    None, so a count is present exactly when the text reads as an i32 above 0.
   */
  function PositiveCount(text: string): (r: Option<nat>)
    ensures r.Some? ==> 0 < r.value <= I32Max
    ensures r.Some? <==> ParseI32(text).Some? && ParseI32(text).value > 0
    ensures r.Some? ==> ParseI32(text) == Some(r.value as int)
  {
    match ParseI32(text)
    case Some(n) => if n > 0 then Some(n) else None
    case None => None
  }

  /** The ahead count of a tracking line: after `[ahead `, up to `]` or `,`. */
  function AheadCount(firstLine: string): Option<nat> {
    if !StartsWith(firstLine, "##") then None
    else
      match SecondPiece(firstLine, AheadTag)
      case None => None
      case Some(piece) => PositiveCount(UpTo(piece, {']', ','}))
  }

  /** The behind count of a tracking line: after `behind `, up to `]`. */
  function BehindCount(firstLine: string): Option<nat> {
    if !StartsWith(firstLine, "##") then None
    else
      match SecondPiece(firstLine, BehindTag)
      case None => None
      case Some(piece) => PositiveCount(UpTo(piece, {']'}))
  }

  function CountMarker(marker: string, count: Option<nat>): string {
    match count
    case Some(n) => marker + NatToString(n)
    case None => ""
  }

  function FirstLine(lines: seq<string>): string {
    if lines == [] then "" else lines[0]
  }

  /**
    `get_git_status`. The fragment is, in this order: ` ⇡A` for a positive
    ahead count, ` ⇣B` for a positive behind count (both only from a first
    line starting with `##`), ` *` exactly when the status output has more
    than one line, and ` ≡` exactly when the stash list is non-empty.
   */
  method GitStatusFragment(statusOut: string, stashOut: string) returns (result: string)
    ensures var lines := Lines(statusOut);
      result ==
        CountMarker(AheadMark, AheadCount(FirstLine(lines)))
        + CountMarker(BehindMark, BehindCount(FirstLine(lines)))
        + (if |lines| > 1 then DirtyMark else "")
        + (if stashOut != "" then StashMark else "")
  {
    result := "";
    var lines := Lines(statusOut);
    ghost var first := FirstLine(lines);
    if |lines| > 0 {
      var firstLine := lines[0];
      if StartsWith(firstLine, "##") {
        // The `contains`, `split(..).nth(1)`, i32 parse and positivity
        // tests of each count are those of AheadCount and BehindCount.
        var aheadCount := AheadCount(firstLine);
        if aheadCount.Some? {
          result := result + (AheadMark + NatToString(aheadCount.value));
        }
        assert result == CountMarker(AheadMark, AheadCount(first));
        ghost var ahead := result;
        var behindCount := BehindCount(firstLine);
        if behindCount.Some? {
          result := result + (BehindMark + NatToString(behindCount.value));
        }
        assert result == ahead + CountMarker(BehindMark, BehindCount(first));
      }
    }
    assert result == CountMarker(AheadMark, AheadCount(first)) + CountMarker(BehindMark, BehindCount(first));
    ghost var tracking := result;
    if |lines| > 1 {
      result := result + DirtyMark;
    }
    assert result == tracking + (if |lines| > 1 then DirtyMark else "");
    ghost var dirty := result;
    if stashOut != "" {
      result := result + StashMark;
    }
    assert result == dirty + (if stashOut != "" then StashMark else "");
    assert result ==
      CountMarker(AheadMark, AheadCount(first)) + CountMarker(BehindMark, BehindCount(first))
      + (if |lines| > 1 then DirtyMark else "") + (if stashOut != "" then StashMark else "");
  }

  /** A pattern whose first character is absent from `x` is first found right after `x`. */
  lemma FindAfter(x: string, pat: string, y: string)
    requires pat != [] && pat[0] !in x
    ensures Find(x + pat + y, pat) == Some(|x|)
  {
    var s := x + pat + y;
    assert s[|x|..|x| + |pat|] == pat;
    assert MatchesAt(s, pat, |x|);
    FindIsFirstMatch(s, pat);
  }

  /** A pattern that does not occur before the end of `x` is first found right after `x`. */
  lemma FindAfterClear(x: string, pat: string, y: string)
    requires forall k: nat :: k < |x| ==> !MatchesAt(x + pat + y, pat, k)
    ensures Find(x + pat + y, pat) == Some(|x|)
  {
    var s := x + pat + y;
    assert s[|x|..|x| + |pat|] == pat;
    assert MatchesAt(s, pat, |x|);
    FindIsFirstMatch(s, pat);
  }

  /** A pattern whose first character is absent from `y` does not occur in it. */
  lemma FindAbsent(y: string, pat: string)
    requires pat != [] && pat[0] !in y
    ensures Find(y, pat).None?
  {
    FindIsFirstMatch(y, pat);
  }

  lemma UpToStop(a: string, c: char, b: string, stops: set<char>)
    requires c in stops
    requires forall d :: d in a ==> d !in stops
    ensures UpTo(a + [c] + b, stops) == a
    decreases |a|
  {
    if a != [] {
      assert (a + [c] + b)[1..] == a[1..] + [c] + b;
      UpToStop(a[1..], c, b, stops);
    }
  }

  /**
    The counts round-trip through a tracking line: for a header without `[`
    in which `behind ` does not occur, not even completed by the space that
    follows it, the line `<head> [ahead A, behind B]` yields A and B back.
   */
  lemma TrackingLineRoundTrip(head: string, a: nat, b: nat)
    requires StartsWith(head, "##") && '[' !in head && !Contains(head + " ", BehindTag)
    requires 0 < a <= I32Max && 0 < b <= I32Max
    ensures var line := head + " [ahead " + NatToString(a) + ", behind " + NatToString(b) + "]";
      AheadCount(line) == Some(a) && BehindCount(line) == Some(b)
  {
    AheadRoundTrip(head, a, b);
    BehindRoundTrip(head, a, b);
  }

  lemma AheadRoundTrip(head: string, a: nat, b: nat)
    requires StartsWith(head, "##") && '[' !in head
    requires 0 < a <= I32Max
    ensures AheadCount(head + " [ahead " + NatToString(a) + ", behind " + NatToString(b) + "]") == Some(a)
  {
    var sa, sb := NatToString(a), NatToString(b);
    var line := head + " [ahead " + sa + ", behind " + sb + "]";
    assert StartsWith(line, "##") by {
      assert line[..2] == head[..2];
    }
    AheadOfTrackingLine(head, sa, sb, line);
    ParseNatToString(a);
  }

  lemma BehindRoundTrip(head: string, a: nat, b: nat)
    requires StartsWith(head, "##") && '[' !in head && !Contains(head + " ", BehindTag)
    requires 0 < b <= I32Max
    ensures BehindCount(head + " [ahead " + NatToString(a) + ", behind " + NatToString(b) + "]") == Some(b)
  {
    var sa, sb := NatToString(a), NatToString(b);
    var line := head + " [ahead " + sa + ", behind " + sb + "]";
    assert StartsWith(line, "##") by {
      assert line[..2] == head[..2];
    }
    BehindOfTrackingLine(head, sa, sb, line);
    ParseNatToString(b);
  }

  /**
    A tracking line with only the ahead count, `<head> [ahead A]`, gives A
    back and no behind count.
   */
  lemma AheadOnlyRoundTrip(head: string, a: nat)
    requires StartsWith(head, "##") && '[' !in head && !Contains(head + " ", BehindTag)
    requires 0 < a <= I32Max
    ensures var line := head + " [ahead " + NatToString(a) + "]";
      AheadCount(line) == Some(a) && BehindCount(line).None?
  {
    var sa := NatToString(a);
    var line := head + " [ahead " + sa + "]";
    assert StartsWith(line, "##") by {
      assert line[..2] == head[..2];
    }
    AheadOnlyPiece(head, sa, line);
    ParseNatToString(a);
    AheadOnlyNoBehind(head, sa, line);
  }

  lemma AheadOnlyNoBehind(head: string, sa: string, line: string)
    requires '[' !in head && !Contains(head + " ", BehindTag) && AllDigits(sa)
    requires line == head + " [ahead " + sa + "]"
    ensures Find(line, BehindTag).None?
  {
    var tags := " [ahead " + sa + "]";
    assert 'b' !in tags && tags[0] == ' ' && tags[1] == '[';
    assert line == head + tags;
    NoBehindTagBefore(head, tags, line);
    FindIsFirstMatch(line, BehindTag);
  }

  lemma AheadOnlyPiece(head: string, sa: string, line: string)
    requires '[' !in head && AllDigits(sa)
    requires line == head + " [ahead " + sa + "]"
    ensures SecondPiece(line, AheadTag) == Some(sa + "]")
    ensures UpTo(sa + "]", {']', ','}) == sa
  {
    var rest := sa + "]";
    assert " [ahead " == " " + AheadTag;
    assert line == (head + " ") + AheadTag + rest;
    FindAfter(head + " ", AheadTag, rest);
    assert line[|head| + 1 + |AheadTag|..] == rest;
    assert '[' !in rest;
    FindAbsent(rest, AheadTag);
    assert rest == sa + [']'] + "";
    UpToStop(sa, ']', "", {']', ','});
  }

  /**
    A tracking line with only the behind count, `<head> [behind B]`, gives
    B back and no ahead count.
   */
  lemma BehindOnlyRoundTrip(head: string, b: nat)
    requires StartsWith(head, "##") && '[' !in head && !Contains(head + " ", BehindTag)
    requires 0 < b <= I32Max
    ensures var line := head + " [behind " + NatToString(b) + "]";
      BehindCount(line) == Some(b) && AheadCount(line).None?
  {
    var sb := NatToString(b);
    var line := head + " [behind " + sb + "]";
    assert StartsWith(line, "##") by {
      assert line[..2] == head[..2];
    }
    BehindOnlyPiece(head, sb, line);
    ParseNatToString(b);
    NoAheadTagInBehindOnly(head, sb, line);
  }

  lemma BehindOnlyPiece(head: string, sb: string, line: string)
    requires '[' !in head && !Contains(head + " ", BehindTag) && AllDigits(sb)
    requires line == head + " [behind " + sb + "]"
    ensures SecondPiece(line, BehindTag) == Some(sb + "]")
    ensures UpTo(sb + "]", {']'}) == sb
  {
    var rest := sb + "]";
    assert " [behind " == " [" + BehindTag;
    assert line == (head + " [") + BehindTag + rest;
    assert StartsWith(line, head + " [");
    NoBehindTagBefore(head, " [", line);
    FindAfterClear(head + " [", BehindTag, rest);
    assert line[|head| + 2 + |BehindTag|..] == rest;
    assert 'b' !in rest;
    FindAbsent(rest, BehindTag);
    assert rest == sb + [']'] + "";
    UpToStop(sb, ']', "", {']'});
  }

  lemma AheadOfTrackingLine(head: string, sa: string, sb: string, line: string)
    requires '[' !in head && AllDigits(sa) && AllDigits(sb)
    requires line == head + " [ahead " + sa + ", behind " + sb + "]"
    ensures SecondPiece(line, AheadTag).Some?
    ensures UpTo(SecondPiece(line, AheadTag).value, {']', ','}) == sa
  {
    var afterAhead := sa + ", behind " + sb + "]";
    var at := |head| + 1;
    AfterAheadParts(sa, sb);
    assert Find(line, AheadTag) == Some(at) by {
      assert " [ahead " == " " + AheadTag;
      assert line == (head + " ") + AheadTag + afterAhead;
      FindAfter(head + " ", AheadTag, afterAhead);
    }
    assert line[at + |AheadTag|..] == afterAhead;
    FindAbsent(afterAhead, AheadTag);
  }

  /** What follows `[ahead ` holds no `[`, and its first piece is the ahead count. */
  lemma AfterAheadParts(sa: string, sb: string)
    requires AllDigits(sa) && AllDigits(sb)
    ensures '[' !in sa + ", behind " + sb + "]"
    ensures UpTo(sa + ", behind " + sb + "]", {']', ','}) == sa
  {
    var rest := " behind " + sb + "]";
    assert ", behind " == [','] + " behind ";
    assert sa + ", behind " + sb + "]" == sa + [','] + rest;
    UpToStop(sa, ',', rest, {']', ','});
  }

  lemma BehindOfTrackingLine(head: string, sa: string, sb: string, line: string)
    requires '[' !in head && !Contains(head + " ", BehindTag) && AllDigits(sa) && AllDigits(sb)
    requires line == head + " [ahead " + sa + ", behind " + sb + "]"
    ensures SecondPiece(line, BehindTag).Some?
    ensures UpTo(SecondPiece(line, BehindTag).value, {']'}) == sb
  {
    var tags := " [ahead " + sa + ", ";
    var afterBehind := sb + "]";
    BothCountsShape(head, sa, sb);
    NoBehindTagBefore(head, tags, line);
    FindAfterClear(head + tags, BehindTag, afterBehind);
    assert line[|head + tags| + |BehindTag|..] == afterBehind;
    FindAbsent(afterBehind, BehindTag);
    UpToStop(sb, ']', "", {']'});
  }

  /** `<head> [ahead A, behind B]` is the header, the text before `behind `, the tag and `B]`. */
  lemma BothCountsShape(head: string, sa: string, sb: string)
    requires AllDigits(sa) && AllDigits(sb)
    ensures var tags := " [ahead " + sa + ", ";
      && head + " [ahead " + sa + ", behind " + sb + "]" == (head + tags) + BehindTag + (sb + "]")
      && StartsWith(head + " [ahead " + sa + ", behind " + sb + "]", head + tags)
      && |tags| >= 2 && tags[0] == ' ' && tags[1] == '[' && 'b' !in tags
      && 'b' !in sb + "]" && sb + "]" == sb + [']'] + ""
  {
    var tags := " [ahead " + sa + ", ";
    var line := head + " [ahead " + sa + ", behind " + sb + "]";
    assert line == (head + tags) + BehindTag + (sb + "]");
    assert line[..|head + tags|] == head + tags;
  }

  /**
    After a header and a bracket text that opens with ` [` and holds no
    `b`, `behind ` cannot start before the end of that text: inside the
    header it would have to end within the header and its space, which the
    header rules out, or run into the `[`; after the header no `b` follows.
   */
  lemma NoBehindTagBefore(head: string, tags: string, line: string)
    requires '[' !in head && !Contains(head + " ", BehindTag)
    requires |tags| >= 2 && tags[0] == ' ' && tags[1] == '[' && 'b' !in tags
    requires StartsWith(line, head + tags)
    ensures forall k: nat :: k < |head + tags| ==> !MatchesAt(line, BehindTag, k)
  {
    var hs := head + " ";
    var p := head + tags;
    assert line[..|p|] == p;
    assert forall i :: 0 <= i < |p| ==> line[i] == p[i];
    assert forall i :: |head| <= i < |p| ==> p[i] == tags[i - |head|];
    FindIsFirstMatch(hs, BehindTag);
    forall k: nat | k < |p|
      ensures !MatchesAt(line, BehindTag, k)
    {
      if k + |BehindTag| <= |hs| {
        assert !MatchesAt(hs, BehindTag, k);
        assert forall i :: k <= i < k + |BehindTag| ==> line[i] == hs[i];
        assert line[k..k + |BehindTag|] == hs[k..k + |BehindTag|];
      } else if k <= |head| {
        var j := |head| + 1 - k;
        assert line[|head| + 1] == '[';
        assert 1 <= j < |BehindTag| && BehindTag[j] != '[';
        assert k + |BehindTag| > |line| || line[k..k + |BehindTag|][j] == '[';
      } else {
        assert line[k] == tags[k - |head|];
        assert k + |BehindTag| > |line| || line[k..k + |BehindTag|][0] != 'b';
      }
    }
  }

  /** `[ahead ` does not occur in `<head> [behind B]`: its one `[` is followed by `b`. */
  lemma NoAheadTagInBehindOnly(head: string, sb: string, line: string)
    requires '[' !in head && AllDigits(sb)
    requires line == head + " [behind " + sb + "]"
    ensures Find(line, AheadTag).None?
  {
    var tail := "behind " + sb + "]";
    BehindOnlyShape(head, sb);
    OneBracket(head, tail, line);
    OneBracketNoAheadTag(line, |head| + 1);
  }

  lemma BehindOnlyShape(head: string, sb: string)
    requires AllDigits(sb)
    ensures head + " [behind " + sb + "]" == head + " [" + ("behind " + sb + "]")
    ensures var tail := "behind " + sb + "]"; '[' !in tail && tail[0] == 'b'
  {
  }

  /** A line whose only `[` is not followed by `a` does not hold `[ahead `. */
  lemma OneBracketNoAheadTag(line: string, pos: nat)
    requires pos + 1 < |line| && line[pos + 1] != 'a'
    requires forall k :: 0 <= k < |line| && k != pos ==> line[k] != '['
    ensures Find(line, AheadTag).None?
  {
    FindIsFirstMatch(line, AheadTag);
    forall k: nat
      ensures !MatchesAt(line, AheadTag, k)
    {
      if k + |AheadTag| <= |line| {
        if k == pos {
          assert line[k..k + |AheadTag|][1] == line[k + 1];
        } else {
          assert line[k..k + |AheadTag|][0] == line[k];
        }
      }
    }
  }

  /** In `<head> [<tail>]` with no other `[`, the one `[` stands right before the tail. */
  lemma OneBracket(head: string, tail: string, line: string)
    requires '[' !in head && '[' !in tail && tail != []
    requires line == head + " [" + tail
    ensures line[|head| + 2] == tail[0]
    ensures forall k :: 0 <= k < |line| && k != |head| + 1 ==> line[k] != '['
  {
    forall k | 0 <= k < |line| && k != |head| + 1
      ensures line[k] != '['
    {
      if k < |head| {
        assert line[k] == head[k];
      } else if k > |head| + 1 {
        assert line[k] == tail[k - |head| - 2];
      }
    }
  }

  /**
    The behind count is lost when the upstream branch's name ends in
    `behind`, as in `## x...origin/behind [ahead 1, behind 2]`: `split("behind ")`
    then cuts right after the header, the piece `[ahead 1, ` does not parse,
    and only the ahead count is shown.
   */
  lemma BehindTagInUpstreamName(h: string, a: nat, b: nat)
    requires StartsWith(h, "##") && '[' !in h && 'b' !in h
    requires 0 < a <= I32Max && 0 < b <= I32Max
    ensures var line := h + "behind" + " [ahead " + NatToString(a) + ", behind " + NatToString(b) + "]";
      AheadCount(line) == Some(a) && BehindCount(line).None?
  {
    AheadRoundTrip(h + "behind", a, b);
    UpstreamBehindLost(h, NatToString(a), NatToString(b));
  }

  lemma UpstreamBehindLost(h: string, sa: string, sb: string)
    requires StartsWith(h, "##") && 'b' !in h && AllDigits(sa)
    ensures BehindCount(h + "behind" + " [ahead " + sa + ", behind " + sb + "]").None?
  {
    var line := h + "behind" + " [ahead " + sa + ", behind " + sb + "]";
    assert StartsWith(line, "##") by {
      assert line[..2] == h[..2];
    }
    var piece := "[ahead " + sa + ", ";
    UpstreamLineShape(h, sa, sb);
    AheadPieceChars(sa);
    UpstreamPiece(h, piece, sb + "]", line);
  }

  /** The piece between the two tags has no `b` or `]`, and is no count. */
  lemma AheadPieceChars(sa: string)
    requires AllDigits(sa)
    ensures var piece := "[ahead " + sa + ", ";
      'b' !in piece && PositiveCount(UpTo(piece, {']'})).None?
  {
    var piece := "[ahead " + sa + ", ";
    assert ']' !in piece;
    assert UpTo(piece, {']'}) == piece;
    assert piece[0] == '[' && !IsDigit('[');
  }

  lemma UpstreamLineShape(h: string, sa: string, sb: string)
    ensures h + "behind" + " [ahead " + sa + ", behind " + sb + "]"
      == h + BehindTag + ("[ahead " + sa + ", " + BehindTag + (sb + "]"))
  {
    assert "behind" + " [ahead " == BehindTag + "[ahead ";
    assert ", behind " == ", " + BehindTag;
  }

  /** `split("behind ").nth(1)` of such a line is the text between the two tags. */
  lemma UpstreamPiece(h: string, piece: string, tail: string, line: string)
    requires 'b' !in h && 'b' !in piece
    requires line == h + BehindTag + (piece + BehindTag + tail)
    ensures SecondPiece(line, BehindTag) == Some(piece)
  {
    var rest := piece + BehindTag + tail;
    FindAfter(h, BehindTag, rest);
    assert line[|h| + |BehindTag|..] == rest;
    FindAfter(piece, BehindTag, tail);
    assert rest[..|piece|] == piece;
  }

  /** Counts come only from a first line that starts with `##`. */
  lemma CountsNeedHeader(firstLine: string)
    requires !StartsWith(firstLine, "##")
    ensures AheadCount(firstLine).None? && BehindCount(firstLine).None?
  {
  }
}
