/**
  The transcript scanner: the session log as already-parsed lines, the
  context-window percentage (`get_context_pct`) and the session duration
  (`get_session_duration` with `parse_timestamp`).
 */
module Transcript {
  import opened Wrappers
  import opened Text

  /** A JSON `timestamp` value: a string, an integer number, or anything else. */
  datatype JsonTs = TsString(text: string) | TsInt(number: int) | TsOther

  /**
    `message.usage` when present; each count is the field's `as_u64()` value,
    or 0 when the field is missing or not an unsigned integer.
   */
  datatype Usage = Usage(inputTokens: nat, outputTokens: nat, cacheReadTokens: nat, cacheCreationTokens: nat)

  /**
    One parsed record. `role` is `message.role` and `kind` the top-level
    `type`, each only when it is a JSON string.
   */
  datatype Rec = Rec(timestamp: Option<JsonTs>, role: Option<string>, kind: Option<string>, usage: Option<Usage>)

  /** A transcript line: blank after trimming, not JSON, or a parsed record. */
  datatype Line = Blank | Malformed | Parsed(rec: Rec)

  /**
    The RFC 3339 (section 5.6) date-time parser, supplied by the caller: the
    instant as epoch milliseconds, or None when the text does not parse.
   */
  type DateParser = string -> Option<int>

  predicate InI64(n: int) {
    I64Min <= n <= I64Max
  }

  /** `parse_timestamp`: epoch milliseconds of a string or integer timestamp. */
  function ParseTimestamp(ts: JsonTs, parse: DateParser): (r: Option<int>)
    ensures ts.TsOther? ==> r.None?
    ensures ts.TsInt? ==> (r.Some? <==> InI64(ts.number)) && (r.Some? ==> r.value == ts.number)
    ensures ts.TsString? ==> r == parse(ts.text)
  {
    match ts
    case TsString(t) => parse(t)
    case TsInt(n) => if InI64(n) then Some(n) else None
    case TsOther => None
  }

  // ---- context-window percentage ----------------------------------------

  const WindowSize: nat := 50
  const ContextCapacity: nat := 160000

  /** The last 50 lines of the transcript (all of them when there are fewer). */
  function Window(lines: seq<Line>): (w: seq<Line>)
    ensures |w| == if |lines| > WindowSize then WindowSize else |lines|
    ensures w == lines[|lines| - |w|..]
  {
    if |lines| > WindowSize then lines[|lines| - WindowSize..] else lines
  }

  /**
    The timestamp `get_context_pct` compares: epoch seconds of a string
    timestamp, the value of an i64 timestamp, and 0 when neither applies.
    chrono's `timestamp()` is the floor of the milliseconds over 1000.
   */
  function ContextTimestamp(ts: JsonTs, parse: DateParser): int {
    match ts
    case TsString(t) => (match parse(t) case Some(ms) => ms / 1000 case None => 0)
    case TsInt(n) => if InI64(n) then n else 0
    case TsOther => 0
  }

  /**
    The two readings of a timestamp agree: the seconds `get_context_pct`
    compares are the milliseconds `parse_timestamp` gives, floored to whole
    seconds for a string, taken as they are for an integer, and 0 when
    `parse_timestamp` gives none.
   */
  lemma ContextTimestampOfParsed(ts: JsonTs, parse: DateParser)
    ensures ContextTimestamp(ts, parse) ==
      match ParseTimestamp(ts, parse)
      case Some(v) => (if ts.TsString? then v / 1000 else v)
      case None => 0
    ensures ts.TsString? && ParseTimestamp(ts, parse).Some? ==>
      var secs, ms := ContextTimestamp(ts, parse), ParseTimestamp(ts, parse).value;
      1000 * secs <= ms < 1000 * secs + 1000
  {
  }

  /** A line `get_context_pct` looks at: timestamp, usage and role "assistant". */
  predicate IsUsageCandidate(line: Line) {
    && line.Parsed?
    && line.rec.timestamp.Some?
    && line.rec.usage.Some?
    && line.rec.role == Some("assistant")
  }

  function CandidateTs(line: Line, parse: DateParser): int
    requires IsUsageCandidate(line)
  {
    ContextTimestamp(line.rec.timestamp.value, parse)
  }

  /**
    The index the scan settles on: a candidate replaces the current choice
    only when its timestamp is strictly greater (the initial bound is 0).
   */
  function Latest(lines: seq<Line>, parse: DateParser): (k: Option<nat>)
    ensures k.Some? ==> k.value < |lines| && IsUsageCandidate(lines[k.value])
    decreases |lines|
  {
    if lines == [] then None
    else
      var prev := Latest(lines[..|lines| - 1], parse);
      var n := |lines| - 1;
      var bound := match prev case None => 0 case Some(p) => CandidateTs(lines[p], parse);
      if IsUsageCandidate(lines[n]) && CandidateTs(lines[n], parse) > bound then Some(n) else prev
  }

  /**
    What `Latest` selects, stated without the scan: no candidate with a
    positive timestamp gives None; otherwise the candidate with the greatest
    timestamp, the first one among equals.
   */
  lemma {:induction false} LatestIsFirstMaximum(lines: seq<Line>, parse: DateParser)
    ensures Latest(lines, parse).None? <==>
      forall j :: 0 <= j < |lines| && IsUsageCandidate(lines[j]) ==> CandidateTs(lines[j], parse) <= 0
    ensures Latest(lines, parse).Some? ==>
      var k := Latest(lines, parse).value;
      && CandidateTs(lines[k], parse) > 0
      && (forall j :: 0 <= j < |lines| && IsUsageCandidate(lines[j]) ==> CandidateTs(lines[j], parse) <= CandidateTs(lines[k], parse))
      && (forall j :: 0 <= j < k && IsUsageCandidate(lines[j]) ==> CandidateTs(lines[j], parse) < CandidateTs(lines[k], parse))
    decreases |lines|
  {
    if lines != [] {
      var init := lines[..|lines| - 1];
      LatestIsFirstMaximum(init, parse);
      assert forall j :: 0 <= j < |init| ==> init[j] == lines[j];
    }
  }

  function UsedTokens(u: Usage): nat {
    u.inputTokens + u.outputTokens + u.cacheReadTokens + u.cacheCreationTokens
  }

  /** The percentage as the display shows it: whole percent, or tenths from 90 up. */
  datatype ShownPct = Whole(percent: nat) | Tenths(tenths: nat)

  function InTenths(p: ShownPct): nat {
    match p
    case Whole(n) => 10 * n
    case Tenths(t) => t
  }

  /** The exact share of the context window in use, capped at 100. */
  function Percent(used: nat): real {
    var p := (used as real) * 100.0 / (ContextCapacity as real);
    if p < 100.0 then p else 100.0
  }

  /**
    min(100, used * 100 / 160000), rounded half up: to a whole percent below
    90, to tenths of a percent from 90 up.
   */
  function Shown(used: nat): ShownPct {
    if used * 100 >= 90 * ContextCapacity then
      var t := (used * 1000 + ContextCapacity / 2) / ContextCapacity;
      Tenths(if t < 1000 then t else 1000)
    else
      Whole((used * 100 + ContextCapacity / 2) / ContextCapacity)
  }

  function RenderPct(p: ShownPct): string {
    match p
    case Whole(n) => NatToString(n)
    case Tenths(t) => NatToString(t / 10) + "." + [DigitChar(t % 10)]
  }

  function PctText(used: nat): string {
    RenderPct(Shown(used))
  }

  /**
    The rendered figure is the exact percentage rounded (to within half a
    unit of its last digit), it uses one decimal exactly from 90% up, and it
    never exceeds 100.
   */
  lemma ShownMatchesPercent(used: nat)
    ensures Shown(used).Tenths? <==> Percent(used) >= 90.0
    ensures Shown(used).Whole? ==>
      (Shown(used).percent as real) - 0.5 <= Percent(used) < (Shown(used).percent as real) + 0.5
    ensures Shown(used).Tenths? ==>
      (Shown(used).tenths as real) / 10.0 - 0.05 <= Percent(used) < (Shown(used).tenths as real) / 10.0 + 0.05
    ensures InTenths(Shown(used)) <= 1000
    ensures used >= ContextCapacity ==> Shown(used) == Tenths(1000)
  {
    var p := (used as real) * 100.0 / (ContextCapacity as real);
    assert p == (used as real) / 1600.0;
    if used * 100 >= 90 * ContextCapacity {
      var t := (used * 1000 + ContextCapacity / 2) / ContextCapacity;
      assert t * 160000 <= used * 1000 + 80000 < t * 160000 + 160000;
      assert (t as real) * 160000.0 <= (used as real) * 1000.0 + 80000.0 < (t as real) * 160000.0 + 160000.0;
      if used < ContextCapacity {
        assert t <= 1000;
      }
    } else {
      var n := (used * 100 + ContextCapacity / 2) / ContextCapacity;
      assert n * 160000 <= used * 100 + 80000 < n * 160000 + 160000;
      assert (n as real) * 160000.0 <= (used as real) * 100.0 + 80000.0 < (n as real) * 160000.0 + 160000.0;
    }
  }

  /** More tokens never show a smaller percentage. */
  lemma ShownMonotone(a: nat, b: nat)
    requires a <= b
    ensures InTenths(Shown(a)) <= InTenths(Shown(b))
  {
    var lim := 90 * ContextCapacity;
    if a * 100 >= lim {
      assert (a * 1000 + 80000) / 160000 <= (b * 1000 + 80000) / 160000;
    } else if b * 100 >= lim {
      assert (a * 100 + 80000) / 160000 <= 90;
      assert (b * 1000 + 80000) / 160000 >= 900;
    } else {
      assert (a * 100 + 80000) / 160000 <= (b * 100 + 80000) / 160000;
    }
  }

  /** Exactly 90% shows one decimal; 89.9% rounds to a whole 90. */
  lemma NinetyPercentBoundary()
    ensures PctText(144000) == "90.0"
    ensures PctText(143840) == "90"
  {
    assert Shown(144000) == Tenths(900);
    assert NatToString(90) == NatToString(9) + [DigitChar(0)];
    assert Shown(143840) == Whole(90);
  }

  /** One more line replaces the choice exactly when it is a candidate stamped later than the current bound. */
  lemma LatestStep(lines: seq<Line>, i: nat, parse: DateParser)
    requires i < |lines|
    ensures var prev := Latest(lines[..i], parse);
      var bound := match prev case None => 0 case Some(p) => CandidateTs(lines[p], parse);
      Latest(lines[..i + 1], parse) ==
        if IsUsageCandidate(lines[i]) && CandidateTs(lines[i], parse) > bound then Some(i) else prev
  {
    var next := lines[..i + 1];
    assert next[..i] == lines[..i] && next[i] == lines[i];
    var prev := Latest(lines[..i], parse);
    if prev.Some? {
      assert next[prev.value] == lines[prev.value];
    }
  }

  /** The figure `get_context_pct` ends with, before any I/O failure is considered. */
  function ContextPctOf(window: seq<Line>, parse: DateParser): string {
    match Latest(window, parse)
    case None => "0"
    case Some(k) => PctText(UsedTokens(window[k].rec.usage.value))
  }

  /**
    `get_context_pct`. `transcript` is None when there is no path or the file
    cannot be read.
   */
  method ContextPct(transcript: Option<seq<Line>>, parse: DateParser) returns (pct: string)
    ensures transcript.None? ==> pct == "0"
    ensures transcript.Some? ==> pct == ContextPctOf(Window(transcript.value), parse)
  {
    if transcript.None? {
      return "0";
    }
    var lines := transcript.value;
    var start := if |lines| > WindowSize then |lines| - WindowSize else 0;
    var window := lines[start..];
    assert window == Window(lines);
    var latestUsage: Option<Usage> := None;
    var latestTs := 0;
    ghost var chosen: Option<nat> := None;
    for i := 0 to |window|
      invariant chosen == Latest(window[..i], parse)
      invariant chosen.None? ==> latestUsage.None? && latestTs == 0
      invariant chosen.Some? ==> chosen.value < i && latestUsage == window[chosen.value].rec.usage
      invariant chosen.Some? ==> latestTs == CandidateTs(window[chosen.value], parse)
    {
      LatestStep(window, i, parse);
      var line := window[i];
      if line.Blank? {
        continue;
      }
      if line.Parsed? && line.rec.timestamp.Some? && line.rec.usage.Some? && line.rec.role.Some? {
        if line.rec.role.value == "assistant" {
          var timestamp := ContextTimestamp(line.rec.timestamp.value, parse);
          if timestamp > latestTs {
            latestTs := timestamp;
            latestUsage := line.rec.usage;
            chosen := Some(i);
          }
        }
      }
    }
    assert window[..|window|] == window;
    match latestUsage {
      case Some(usage) =>
        pct := PctText(UsedTokens(usage));
      case None =>
        pct := "0";
    }
  }

  // ---- session duration -------------------------------------------------

  predicate IsStamped(line: Line) {
    line.Parsed? && line.rec.timestamp.Some?
  }

  /** The transcript without its blank lines. */
  function NonBlank(lines: seq<Line>): (r: seq<Line>)
    ensures forall l :: l in r ==> l in lines && !l.Blank?
    ensures |r| <= |lines|
  {
    if lines == [] then []
    else (if lines[0].Blank? then [] else [lines[0]]) + NonBlank(lines[1..])
  }

  /** Dropping blank lines works line by line: it distributes over concatenation. */
  lemma {:induction false} NonBlankAppend(a: seq<Line>, b: seq<Line>)
    ensures NonBlank(a + b) == NonBlank(a) + NonBlank(b)
    decreases |a|
  {
    if a == [] {
      assert a + b == b;
    } else {
      assert (a + b)[0] == a[0];
      assert (a + b)[1..] == a[1..] + b;
      NonBlankAppend(a[1..], b);
    }
  }

  /** A single line is dropped exactly when it is blank, and kept otherwise. */
  lemma NonBlankSingleton(l: Line)
    ensures NonBlank([l]) == if l.Blank? then [] else [l]
  {
    assert [l][1..] == [];
  }

  /** Index of the first line bearing a timestamp. */
  function FirstStamped(lines: seq<Line>): (k: Option<nat>)
    ensures k.Some? ==> k.value < |lines| && IsStamped(lines[k.value])
    ensures k.Some? ==> forall j :: 0 <= j < k.value ==> !IsStamped(lines[j])
    ensures k.None? ==> forall j :: 0 <= j < |lines| ==> !IsStamped(lines[j])
    decreases |lines|
  {
    if lines == [] then None
    else if IsStamped(lines[0]) then Some(0)
    else
      match FirstStamped(lines[1..])
      case None => None
      case Some(k) => Some(k + 1)
  }

  /** Index of the last line bearing a timestamp. */
  function LastStamped(lines: seq<Line>): (k: Option<nat>)
    ensures k.Some? ==> k.value < |lines| && IsStamped(lines[k.value])
    ensures k.Some? ==> forall j :: k.value < j < |lines| ==> !IsStamped(lines[j])
    ensures k.None? ==> forall j :: 0 <= j < |lines| ==> !IsStamped(lines[j])
    decreases |lines|
  {
    if lines == [] then None
    else if IsStamped(lines[|lines| - 1]) then Some(|lines| - 1)
    else LastStamped(lines[..|lines| - 1])
  }

  /** Rust's `/` on integers: the quotient rounded toward zero. */
  function TruncDiv(a: int, b: nat): int
    requires b > 0
  {
    if a >= 0 then a / b else -((-a) / b)
  }

  /** Rust's `%` on integers: the remainder takes the sign of `a`. */
  function TruncRem(a: int, b: nat): int
    requires b > 0
  {
    a - b * TruncDiv(a, b)
  }

  const MsPerHour: nat := 1000 * 60 * 60
  const MsPerMinute: nat := 1000 * 60

  /** The `{h}h{m}m` / `{m}m` / `<1m` rendering of a duration in milliseconds. */
  function FormatDuration(ms: int): string {
    var hours := TruncDiv(ms, MsPerHour);
    var minutes := TruncDiv(TruncRem(ms, MsPerHour), MsPerMinute);
    if hours > 0 then
      NatToString(hours) + "h" + NatToString(if minutes >= 0 then minutes else 0) + "m"
    else if minutes > 0 then NatToString(minutes) + "m"
    else "<1m"
  }

  /**
    The rendering in terms of whole hours and minutes of an ordinary
    (floor) division; every negative duration, as well as anything under a
    minute, shows "<1m".
   */
  lemma FormatDurationMeaning(ms: int)
    ensures ms < MsPerMinute ==> FormatDuration(ms) == "<1m"
    ensures MsPerMinute <= ms < MsPerHour ==> FormatDuration(ms) == NatToString(ms / MsPerMinute) + "m"
    ensures ms >= MsPerHour ==>
      FormatDuration(ms) == NatToString(ms / MsPerHour) + "h" + NatToString(ms % MsPerHour / MsPerMinute) + "m"
  {
    if ms < MsPerMinute {
      DurationUnderMinute(ms);
    } else if ms < MsPerHour {
      DurationInMinutes(ms);
    } else {
      DurationInHours(ms);
    }
  }

  lemma DurationUnderMinute(ms: int)
    requires ms < MsPerMinute
    ensures FormatDuration(ms) == "<1m"
  {
    var hours := TruncDiv(ms, MsPerHour);
    var minutes := TruncDiv(TruncRem(ms, MsPerHour), MsPerMinute);
    if ms < 0 {
      TruncationOfNegative(ms);
    } else {
      TruncationOfNonNegative(ms);
    }
    assert hours <= 0 && minutes <= 0;
  }

  lemma DurationInMinutes(ms: int)
    requires MsPerMinute <= ms < MsPerHour
    ensures FormatDuration(ms) == NatToString(ms / MsPerMinute) + "m"
  {
    TruncationOfNonNegative(ms);
    var hours := TruncDiv(ms, MsPerHour);
    var minutes := TruncDiv(TruncRem(ms, MsPerHour), MsPerMinute);
    assert hours == 0;
    assert minutes == ms / MsPerMinute > 0;
  }

  lemma DurationInHours(ms: int)
    requires ms >= MsPerHour
    ensures FormatDuration(ms) == NatToString(ms / MsPerHour) + "h" + NatToString(ms % MsPerHour / MsPerMinute) + "m"
  {
    TruncationOfNonNegative(ms);
    var hours := TruncDiv(ms, MsPerHour);
    var minutes := TruncDiv(TruncRem(ms, MsPerHour), MsPerMinute);
    assert hours > 0;
    assert minutes >= 0;
  }

  lemma TruncationOfNegative(ms: int)
    requires ms < 0
    ensures TruncDiv(ms, MsPerHour) <= 0
    ensures TruncDiv(TruncRem(ms, MsPerHour), MsPerMinute) <= 0
  {
    var q := (-ms) / 3600000;
    assert q * 3600000 <= -ms;
    assert TruncRem(ms, MsPerHour) == ms + 3600000 * q;
  }

  lemma TruncationOfNonNegative(ms: int)
    requires ms >= 0
    ensures TruncDiv(ms, MsPerHour) == ms / MsPerHour
    ensures TruncDiv(TruncRem(ms, MsPerHour), MsPerMinute) == ms % MsPerHour / MsPerMinute
  {
    assert TruncRem(ms, MsPerHour) == ms % MsPerHour;
  }

  /** The instant of a stamped line, as `parse_timestamp` reads it. */
  function StampOf(line: Line, parse: DateParser): Option<int>
    requires IsStamped(line)
  {
    ParseTimestamp(line.rec.timestamp.value, parse)
  }

  /**
    The span `get_session_duration` measures in a readable transcript:
    None with fewer than two non-blank lines, when no line bears a
    timestamp, or when the first or the last stamped line does not parse
    (there is no falling back to a later or an earlier line); otherwise the
    last stamp less the first, in milliseconds.
   */
  function SpanOf(lines: seq<Line>, parse: DateParser): Option<int> {
    var ls := NonBlank(lines);
    if |ls| < 2 then None
    else
      match FirstStamped(ls)
      case None => None
      case Some(i) =>
        match StampOf(ls[i], parse)
        case None => None
        case Some(first) =>
          match LastStamped(ls)
          case None => None
          case Some(j) =>
            match StampOf(ls[j], parse)
            case None => None
            case Some(last) => Some(last - first)
  }

  /** What `get_session_duration` returns for a readable transcript: the span, rendered. */
  function DurationOf(lines: seq<Line>, parse: DateParser): Option<string> {
    match SpanOf(lines, parse)
    case Some(span) => Some(FormatDuration(span))
    case None => None
  }

  /** There is a first stamped line exactly when there is a last one, and it comes no later. */
  lemma FirstStampedNotAfterLast(lines: seq<Line>)
    ensures FirstStamped(lines).Some? <==> LastStamped(lines).Some?
    ensures FirstStamped(lines).Some? ==> FirstStamped(lines).value <= LastStamped(lines).value
  {
    var f, l := FirstStamped(lines), LastStamped(lines);
    if f.Some? {
      assert IsStamped(lines[f.value]);
    }
    if l.Some? {
      assert IsStamped(lines[l.value]);
    }
  }

  /** The forward scan of `get_session_duration` for the first line with a timestamp. */
  method ScanFirstStamped(lines: seq<Line>) returns (found: Option<nat>)
    ensures found == FirstStamped(lines)
  {
    var i := 0;
    while i < |lines|
      invariant 0 <= i <= |lines|
      invariant forall j :: 0 <= j < i ==> !IsStamped(lines[j])
    {
      if lines[i].Parsed? && lines[i].rec.timestamp.Some? {
        return Some(i);
      }
      i := i + 1;
    }
    return None;
  }

  /** The backward scan of `get_session_duration` for the last line with a timestamp. */
  method ScanLastStamped(lines: seq<Line>) returns (found: Option<nat>)
    ensures found == LastStamped(lines)
  {
    var k := |lines|;
    while k > 0
      invariant 0 <= k <= |lines|
      invariant forall j :: k <= j < |lines| ==> !IsStamped(lines[j])
    {
      if lines[k - 1].Parsed? && lines[k - 1].rec.timestamp.Some? {
        return Some(k - 1);
      }
      k := k - 1;
    }
    return None;
  }

  /**
    The measuring part of `get_session_duration` on a readable transcript:
    drop blank lines, find the first and the last stamped line, and parse
    both; a stamp that does not parse ends it with None (the `?` inside
    each scan).
   */
  method SessionSpan(transcript: seq<Line>, parse: DateParser) returns (span: Option<int>)
    ensures span == SpanOf(transcript, parse)
  {
    var lines := NonBlank(transcript);
    if |lines| < 2 {
      return None;
    }
    var firstTs: Option<int> := None;
    var lastTs: Option<int> := None;

    var first := ScanFirstStamped(lines);
    if first.Some? {
      var ts := ParseTimestamp(lines[first.value].rec.timestamp.value, parse);
      if ts.None? {
        return None;
      }
      firstTs := ts;
    }
    var last := ScanLastStamped(lines);
    if last.Some? {
      var ts := ParseTimestamp(lines[last.value].rec.timestamp.value, parse);
      if ts.None? {
        return None;
      }
      lastTs := ts;
    }
    FirstStampedNotAfterLast(lines);

    if firstTs.Some? && lastTs.Some? {
      span := Some(lastTs.value - firstTs.value);
    } else {
      span := None;
    }
  }

  /**
    `get_session_duration`. `transcript` is None when there is no path, the
    file does not exist or it cannot be read.
   */
  method SessionDuration(transcript: Option<seq<Line>>, parse: DateParser) returns (r: Option<string>)
    ensures transcript.None? ==> r.None?
    ensures transcript.Some? ==> r == DurationOf(transcript.value, parse)
  {
    if transcript.None? {
      return None;
    }
    var span := SessionSpan(transcript.value, parse);
    if span.Some? {
      r := Some(FormatDuration(span.value));
    } else {
      r := None;
    }
  }

  /** A transcript with fewer than two non-blank lines has no duration. */
  lemma ShortTranscriptHasNoDuration(lines: seq<Line>, parse: DateParser)
    requires |NonBlank(lines)| < 2
    ensures DurationOf(lines, parse).None?
  {
  }

  /** With exactly one line bearing a parsable timestamp among enough lines, the span is zero and shows "<1m". */
  lemma SingleStampIsUnderMinute(lines: seq<Line>, parse: DateParser, k: nat)
    requires |NonBlank(lines)| >= 2
    requires k < |NonBlank(lines)| && IsStamped(NonBlank(lines)[k])
    requires forall j :: 0 <= j < |NonBlank(lines)| && j != k ==> !IsStamped(NonBlank(lines)[j])
    requires StampOf(NonBlank(lines)[k], parse).Some?
    ensures SpanOf(lines, parse) == Some(0)
    ensures DurationOf(lines, parse) == Some("<1m")
  {
    var ls := NonBlank(lines);
    assert FirstStamped(ls) == Some(k);
    assert LastStamped(ls) == Some(k);
    DurationUnderMinute(0);
  }
}
