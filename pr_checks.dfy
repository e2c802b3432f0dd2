/**
  The pull-request checks fragment built inside `get_pr_status`: checks are
  grouped by bucket, then fail, pending and pass segments are rendered in
  that order.
 */
module PrChecks {
  import opened Wrappers
  import opened Text
  import opened Ansi

  /** One element of the `gh pr checks` array: `bucket` and `name` when they are strings. */
  datatype Check = Check(bucket: Option<string>, name: Option<string>)

  /** A missing bucket counts as pending. */
  function BucketOf(c: Check): string {
    c.bucket.GetOr("pending")
  }

  function NameOf(c: Check): string {
    c.name.GetOr("")
  }

  /** The names of the checks in bucket `b`, in input order. */
  function Names(checks: seq<Check>, b: string): (ns: seq<string>)
    ensures |ns| <= |checks|
    decreases |checks|
  {
    if checks == [] then []
    else
      var n := |checks| - 1;
      Names(checks[..n], b) + (if BucketOf(checks[n]) == b then [NameOf(checks[n])] else [])
  }


  function TakeThree(ns: seq<string>): seq<string> {
    if |ns| > 3 then ns[..3] else ns
  }

  /**
    A fail or pending segment: the count only when there is more than one
    check, the first three names joined by commas, and `...` when there are
    more than three. An empty bucket has no segment.
   */
  function NamedSegment(open: string, ns: seq<string>): string {
    if ns == [] then ""
    else
      var count := if |ns| > 1 then NatToString(|ns|) else "";
      var more := if |ns| > 3 then "..." else "";
      open + count + ":" + Join(TakeThree(ns), ",") + more + Reset + " "
  }

  /** The openings of the fail and pending segments: a colour and a mark. */
  const FailOpen: string := Red + "✗"
  const PendingOpen: string := Yellow + "○"

  /** The pass segment shows only the count. */
  function PassSegment(ns: seq<string>): string {
    if ns == [] then "" else Green + "✓" + NatToString(|ns|) + Reset
  }

  /** The fragment before trimming: fail, then pending, then pass. */
  function ChecksText(checks: seq<Check>): string {
    NamedSegment(FailOpen, Names(checks, "fail"))
    + NamedSegment(PendingOpen, Names(checks, "pending"))
    + PassSegment(Names(checks, "pass"))
  }

  /** One more check extends exactly the list of its own bucket. */
  lemma NamesStep(checks: seq<Check>, i: nat, b: string)
    requires i < |checks|
    ensures Names(checks[..i + 1], b) ==
      Names(checks[..i], b) + (if BucketOf(checks[i]) == b then [NameOf(checks[i])] else [])
  {
    var next := checks[..i + 1];
    assert next[..i] == checks[..i] && next[i] == checks[i];
  }

  /**
    The grouping loop of `get_pr_status`: each check's name is appended to
    the list of its bucket (missing bucket: "pending", missing name: "").
    A bucket is a key exactly when some check falls in it.
   */
  method GroupChecks(checks: seq<Check>) returns (groups: map<string, seq<string>>)
    ensures forall b :: b in groups ==> groups[b] == Names(checks, b) && groups[b] != []
    ensures forall b :: b !in groups ==> Names(checks, b) == []
  {
    groups := map[];
    for i := 0 to |checks|
      invariant forall b :: b in groups ==> groups[b] == Names(checks[..i], b) && groups[b] != []
      invariant forall b :: b !in groups ==> Names(checks[..i], b) == []
    {
      // `unwrap_or("pending")` and `unwrap_or("")` are BucketOf and NameOf.
      var bucket := BucketOf(checks[i]);
      var name := NameOf(checks[i]);
      var entry := if bucket in groups then groups[bucket] else [];
      groups := groups[bucket := entry + [name]];
      forall b | b in groups
        ensures groups[b] == Names(checks[..i + 1], b) && groups[b] != []
      {
        NamesStep(checks, i, b);
      }
      forall b | b !in groups
        ensures Names(checks[..i + 1], b) == []
      {
        NamesStep(checks, i, b);
      }
    }
    assert checks[..|checks|] == checks;
  }

  /**
    Grouping and rendering (the `HashMap` of `Vec`s and the pushes into
    `status`); the caller trims the result.
   */
  method AggregateChecks(checks: seq<Check>) returns (status: string)
    ensures status == ChecksText(checks)
  {
    var groups := GroupChecks(checks);
    ghost var fails, pendings, passes := Names(checks, "fail"), Names(checks, "pending"), Names(checks, "pass");
    assert "fail" in groups <==> fails != [];
    assert "pending" in groups <==> pendings != [];
    assert "pass" in groups <==> passes != [];

    status := "";
    if "fail" in groups {
      status := status + NamedSegment(FailOpen, groups["fail"]);
    }
    assert status == NamedSegment(FailOpen, fails);
    ghost var upToFail := status;
    if "pending" in groups {
      status := status + NamedSegment(PendingOpen, groups["pending"]);
    }
    assert status == upToFail + NamedSegment(PendingOpen, pendings);
    ghost var upToPending := status;
    if "pass" in groups {
      status := status + PassSegment(groups["pass"]);
    }
    assert status == upToPending + PassSegment(passes);
    assert status == NamedSegment(FailOpen, fails) + NamedSegment(PendingOpen, pendings) + PassSegment(passes);
  }

  const KnownBuckets: set<string> := {"fail", "pending", "pass"}

  /** A check in any other bucket leaves the fragment unchanged. */
  lemma OtherBucketIgnored(checks: seq<Check>, c: Check)
    requires BucketOf(c) !in KnownBuckets
    ensures ChecksText(checks + [c]) == ChecksText(checks)
  {
    var cs := checks + [c];
    assert cs[..|cs| - 1] == checks;
    assert Names(cs, "fail") == Names(checks, "fail");
    assert Names(cs, "pending") == Names(checks, "pending");
    assert Names(cs, "pass") == Names(checks, "pass");
  }

  /** The fragment depends on each check only through its bucket and name. */
  lemma {:induction false} NamesRespectBuckets(cs: seq<Check>, ds: seq<Check>, b: string)
    requires |cs| == |ds|
    requires forall i :: 0 <= i < |cs| ==> BucketOf(cs[i]) == BucketOf(ds[i]) && NameOf(cs[i]) == NameOf(ds[i])
    ensures Names(cs, b) == Names(ds, b)
    decreases |cs|
  {
    if cs != [] {
      var n := |cs| - 1;
      NamesRespectBuckets(cs[..n], ds[..n], b);
    }
  }

  /** A check without a bucket renders exactly as one in the pending bucket. */
  lemma MissingBucketIsPending(checks: seq<Check>, k: nat)
    requires k < |checks| && checks[k].bucket.None?
    ensures ChecksText(checks[k := Check(Some("pending"), checks[k].name)]) == ChecksText(checks)
  {
    var ds := checks[k := Check(Some("pending"), checks[k].name)];
    NamesRespectBuckets(ds, checks, "fail");
    NamesRespectBuckets(ds, checks, "pending");
    NamesRespectBuckets(ds, checks, "pass");
  }

  /** The three buckets shown never hold more checks than were reported; all of them when every bucket is known. */
  lemma {:induction false} BucketSizes(checks: seq<Check>)
    ensures |Names(checks, "fail")| + |Names(checks, "pending")| + |Names(checks, "pass")| <= |checks|
    ensures (forall i :: 0 <= i < |checks| ==> BucketOf(checks[i]) in KnownBuckets) ==>
      |Names(checks, "fail")| + |Names(checks, "pending")| + |Names(checks, "pass")| == |checks|
    decreases |checks|
  {
    if checks != [] {
      var n := |checks| - 1;
      BucketSizes(checks[..n]);
      assert forall i :: 0 <= i < n ==> checks[..n][i] == checks[i];
    }
  }

  /** No name holding `c` means no bucket's names hold `c`. */
  lemma {:induction false} NamesExclude(checks: seq<Check>, b: string, c: char)
    requires forall i :: 0 <= i < |checks| ==> c !in NameOf(checks[i])
    ensures forall s :: s in Names(checks, b) ==> c !in s
    decreases |checks|
  {
    if checks != [] {
      var n := |checks| - 1;
      NamesExclude(checks[..n], b, c);
    }
  }

  lemma NamedSegmentExcludesBar(open: string, ns: seq<string>)
    requires '|' !in open
    requires forall s :: s in ns ==> '|' !in s
    ensures '|' !in NamedSegment(open, ns)
  {
    if ns != [] {
      JoinExcludes(TakeThree(ns), ",", '|');
      if |ns| > 1 {
        assert forall ch :: ch in NatToString(|ns|) ==> IsDigit(ch);
      }
    }
  }

  lemma PassSegmentExcludesBar(ns: seq<string>)
    ensures '|' !in PassSegment(ns)
  {
    if ns != [] {
      assert forall ch :: ch in NatToString(|ns|) ==> IsDigit(ch);
    }
  }

  /** Check names free of `|` give a fragment free of `|`, so the cache can hold it. */
  lemma ChecksTextExcludesBar(checks: seq<Check>)
    requires forall i :: 0 <= i < |checks| ==> '|' !in NameOf(checks[i])
    ensures '|' !in ChecksText(checks)
  {
    var fail, pending, pass := Names(checks, "fail"), Names(checks, "pending"), Names(checks, "pass");
    NamesExclude(checks, "fail", '|');
    NamesExclude(checks, "pending", '|');
    NamedSegmentExcludesBar(FailOpen, fail);
    NamedSegmentExcludesBar(PendingOpen, pending);
    PassSegmentExcludesBar(pass);
    var f, o, p := NamedSegment(FailOpen, fail), NamedSegment(PendingOpen, pending), PassSegment(pass);
    assert ChecksText(checks) == f + o + p;
  }

  /**
    A non-empty bucket's segment opens with the count (only for more than
    one check), a colon and the first three names (all of them when there
    are fewer) joined by commas, and ends with `...` exactly when names were
    left out, then a reset and a space.
   */
  lemma NamedSegmentShape(open: string, ns: seq<string>)
    requires ns != []
    ensures var count := if |ns| > 1 then NatToString(|ns|) else "";
      var shown := ns[..if |ns| > 3 then 3 else |ns|];
      StartsWith(NamedSegment(open, ns), open + count + ":" + Join(shown, ","))
    ensures var more := if |ns| > 3 then "..." else "";
      EndsWith(NamedSegment(open, ns), more + Reset + " ")
    ensures |TakeThree(ns)| == (if |ns| > 3 then 3 else |ns|) && TakeThree(ns) == ns[..|TakeThree(ns)|]
  {
    var count := if |ns| > 1 then NatToString(|ns|) else "";
    var more := if |ns| > 3 then "..." else "";
    var head := open + count + ":" + Join(TakeThree(ns), ",");
    var tail := more + Reset + " ";
    var seg := NamedSegment(open, ns);
    assert TakeThree(ns) == ns[..if |ns| > 3 then 3 else |ns|];
    assert seg == head + tail;
    assert seg[..|head|] == head;
    assert seg[|seg| - |tail|..] == tail;
  }

  /** Appending a check extends exactly the list of its own bucket. */
  lemma NamesSnoc(checks: seq<Check>, c: Check)
    ensures forall b :: (Names(checks + [c], b) ==
      Names(checks, b) + (if BucketOf(c) == b then [NameOf(c)] else []))
  {
    assert (checks + [c])[..|checks|] == checks;
  }

  /** A failing check, one without a bucket, a passing one and a skipped one. */
  function ExampleChecks(f: string, p: string, s: string, k: string): seq<Check> {
    [Check(Some("fail"), Some(f)), Check(None, Some(p)), Check(Some("pass"), Some(s)), Check(Some("skipping"), Some(k))]
  }

  /** The example's buckets: the check without a bucket is pending, the skipped one is in none shown. */
  lemma ExampleNames(f: string, p: string, s: string, k: string)
    ensures Names(ExampleChecks(f, p, s, k), "fail") == [f]
    ensures Names(ExampleChecks(f, p, s, k), "pending") == [p]
    ensures Names(ExampleChecks(f, p, s, k), "pass") == [s]
  {
    var cs := ExampleChecks(f, p, s, k);
    var c0, c1, c2, c3 := cs[0], cs[1], cs[2], cs[3];
    NamesSnoc([], c0);
    NamesSnoc([c0], c1);
    NamesSnoc([c0, c1], c2);
    NamesSnoc([c0, c1, c2], c3);
    assert [c0] == [] + [c0];
    assert [c0, c1] == [c0] + [c1];
    assert [c0, c1, c2] == [c0, c1] + [c2];
    assert cs == [c0, c1, c2] + [c3];
  }

  /** The example renders as one fail, one pending and one pass segment, in that order, without counts for single checks. */
  lemma ChecksTextExample(f: string, p: string, s: string, k: string)
    ensures ChecksText(ExampleChecks(f, p, s, k))
      == (Red + "✗:" + f + Reset + " ") + (Yellow + "○:" + p + Reset + " ") + (Green + "✓1" + Reset)
  {
    ExampleNames(f, p, s, k);
    assert Join([f], ",") == f;
    assert NatToString(1) == "1";
  }
}
