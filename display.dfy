/**
  The pure display expressions of `statusline`: the repository name taken
  from the origin URL, the worktree branch marker, the PR part, the
  ordered join of the non-empty components, and the layout of the final
  line. Colour codes are opaque constants.
 */
module Display {
  import opened Text
  import opened Ansi

  /** The bullet placed before every component. */
  const Sep := " \U{1B}[90m• \U{1B}[0m"
  const WorktreeMarker := "/.git/worktrees/"

  // ---- repository name --------------------------------------------------------

  /** Position of the last `c` in `s`. */
  function LastIndexOf(s: string, c: char): (k: nat)
    requires c in s
    ensures k < |s| && s[k] == c && c !in s[k + 1..]
    decreases |s|
  {
    if s[|s| - 1] == c then |s| - 1
    else
      var k := LastIndexOf(s[..|s| - 1], c);
      assert s[k + 1..] == s[..|s| - 1][k + 1..] + [s[|s| - 1]];
      k
  }

  /** A separator followed by text without one adds that text as a last piece. */
  lemma {:induction false} SplitSnoc(x: string, sep: char, b: string)
    requires sep !in b
    ensures Split(x + [sep] + b, sep) == Split(x, sep) + [b]
    decreases |x|
  {
    if sep !in x {
      SplitCons(x, sep, b);
      assert Split(b, sep) == [b];
    } else {
      var s := x + [sep] + b;
      var i := FirstIndexOf(x, sep);
      var x1, x2 := x[..i], x[i + 1..];
      assert s[..i] == x1;
      assert s[i] == sep;
      FirstIndexOfUnique(s, sep, i);
      assert s[i + 1..] == x2 + [sep] + b;
      assert Split(s, sep) == [x1] + Split(x2 + [sep] + b, sep);
      SplitSnoc(x2, sep, b);
      assert Split(x, sep) == [x1] + Split(x2, sep);
    }
  }

  /**
    The last `sep`-separated piece of `s` is a suffix of `s` without `sep`,
    and is either all of `s` or preceded by `sep`.
   */
  lemma LastPieceIsTail(s: string, sep: char)
    ensures var l := Last(Split(s, sep));
      && |l| <= |s| && s[|s| - |l|..] == l
      && (|l| < |s| ==> s[|s| - |l| - 1] == sep)
  {
    if sep !in s {
      assert Split(s, sep) == [s];
      assert s[|s| - |s|..] == s;
    } else {
      var k := LastIndexOf(s, sep);
      var tail := s[k + 1..];
      assert s == s[..k] + [sep] + tail;
      SplitSnoc(s[..k], sep, tail);
      assert Last(Split(s, sep)) == tail;
    }
  }

  /** The piece after the last `sep` is what follows it. */
  lemma LastPieceAfter(a: string, sep: char, b: string)
    requires sep !in b
    ensures Last(Split(a + [sep] + b, sep)) == b
  {
    SplitSnoc(a, sep, b);
  }

  /**
    The repository name: the last `/` piece of the origin URL without its
    `.git` suffix, or the whole URL when that piece has no such suffix.
   */
  function RepoName(repoUrl: string): string {
    var last := Last(Split(repoUrl, '/'));
    if EndsWith(last, ".git") then last[..|last| - 4] else repoUrl
  }

  /**
    A URL without a `.git` suffix comes back whole; one with it gives the
    last path segment less `.git`, which holds no `/`.
   */
  lemma RepoNameMeaning(repoUrl: string)
    ensures !EndsWith(repoUrl, ".git") ==> RepoName(repoUrl) == repoUrl
    ensures EndsWith(repoUrl, ".git") ==>
      var name := RepoName(repoUrl);
      && '/' !in name
      && EndsWith(repoUrl, name + ".git")
      && (|name| + 4 < |repoUrl| ==> repoUrl[|repoUrl| - |name| - 5] == '/')
  {
    LastPieceIsTail(repoUrl, '/');
    var last := Last(Split(repoUrl, '/'));
    var u := repoUrl;
    if EndsWith(last, ".git") {
      assert u[|u| - 4..] == last[|last| - 4..];
    }
    if EndsWith(last, ".git") {
      var name := last[..|last| - 4];
      assert name + ".git" == last;
      assert '/' !in last;
    }
  }

  /** `<anything>/<name>.git` names the repository `name`. */
  lemma RepoNameOfGitUrl(prefix: string, name: string)
    requires '/' !in name
    ensures RepoName(prefix + "/" + name + ".git") == name
  {
    assert prefix + "/" + name + ".git" == prefix + ['/'] + (name + ".git");
    LastPieceAfter(prefix, '/', name + ".git");
    assert (name + ".git")[..|name|] == name;
  }

  // ---- worktree marker ------------------------------------------------------

  /** The worktree's directory name: the last `/` piece of the shown path less trailing space. */
  function WorktreeName(displayDir: string): string {
    Last(Split(TrimEnd(displayDir), '/'))
  }

  predicate IsWorktree(gitDir: string) {
    Contains(gitDir, WorktreeMarker)
  }

  /**
    The branch as shown: in a linked worktree, `↟` alone when the branch is
    named after the worktree directory and `<branch>↟` otherwise; elsewhere
    the branch itself.
   */
  function BranchLabel(branch: string, gitDir: string, displayDir: string): string {
    if IsWorktree(gitDir) then
      if branch == WorktreeName(displayDir) then "↟" else branch + "↟"
    else branch
  }

  /** The inverse of the worktree elision, given the shown path. */
  function RecoverBranch(shown: string, displayDir: string): string {
    if shown == "↟" then WorktreeName(displayDir)
    else if |shown| > 0 then shown[..|shown| - 1]
    else shown
  }

  /**
    In a worktree the marker is elided to `↟` exactly when the branch
    matches the directory name, and the branch can always be read back
    from the shown and the shown path.
   */
  lemma WorktreeLabelRoundTrip(branch: string, gitDir: string, displayDir: string)
    requires branch != "" && IsWorktree(gitDir)
    ensures BranchLabel(branch, gitDir, displayDir) == "↟" <==> branch == WorktreeName(displayDir)
    ensures EndsWith(BranchLabel(branch, gitDir, displayDir), "↟")
    ensures RecoverBranch(BranchLabel(branch, gitDir, displayDir), displayDir) == branch
  {
    var shown := BranchLabel(branch, gitDir, displayDir);
    if branch != WorktreeName(displayDir) {
      assert |shown| == |branch| + 1;
      assert shown[..|branch|] == branch;
    }
  }

  /** The shown path `<dir> ` names the worktree after the last `/` of `dir`. */
  lemma WorktreeNameOfShownPath(parent: string, name: string)
    requires '/' !in name && name != [] && !IsWhitespace(name[|name| - 1])
    ensures WorktreeName(parent + "/" + name + " ") == name
  {
    var shown := parent + "/" + name + " ";
    var path := parent + ['/'] + name;
    assert shown[..|shown| - 1] == path;
    assert TrimEnd(shown) == TrimEnd(path);
    assert path[|path| - 1] == name[|name| - 1];
    assert TrimEnd(path) == path;
    LastPieceAfter(parent, '/', name);
    assert WorktreeName(shown) == Last(Split(path, '/'));
  }

  // ---- PR part ----------------------------------------------------------------

  /** URL and checks status, a space between them when both are present. */
  function PrDisplay(prUrl: string, prStatus: string): string {
    if prUrl != "" || prStatus != "" then
      prUrl + (if prUrl != "" && prStatus != "" then " " else "") + prStatus + Reset
    else ""
  }

  lemma PrDisplayShape(prUrl: string, prStatus: string)
    ensures PrDisplay(prUrl, prStatus) == "" <==> prUrl == "" && prStatus == ""
    ensures PrDisplay(prUrl, prStatus) != "" ==>
      && StartsWith(PrDisplay(prUrl, prStatus), prUrl)
      && EndsWith(PrDisplay(prUrl, prStatus), prStatus + Reset)
  {
    var d := PrDisplay(prUrl, prStatus);
    if d != "" {
      var mid := if prUrl != "" && prStatus != "" then " " else "";
      assert d == prUrl + (mid + prStatus + Reset);
      assert d[..|prUrl|] == prUrl;
      assert d == (prUrl + mid) + (prStatus + Reset);
      assert d[|d| - |prStatus + Reset|..] == prStatus + Reset;
    }
  }

  // ---- components -------------------------------------------------------------

  /** The non-empty candidates, in their order. */
  function NonEmpty(candidates: seq<string>): (kept: seq<string>)
    ensures |kept| <= |candidates|
    ensures forall i :: 0 <= i < |kept| ==> kept[i] != ""
  {
    if candidates == [] then []
    else
      var last := candidates[|candidates| - 1];
      NonEmpty(candidates[..|candidates| - 1]) + (if last != "" then [last] else [])
  }

  /** Dropping empty candidates distributes over concatenation. */
  lemma {:induction false} NonEmptyAppend(a: seq<string>, b: seq<string>)
    ensures NonEmpty(a + b) == NonEmpty(a) + NonEmpty(b)
    decreases |b|
  {
    if b == [] {
      assert a + b == a;
    } else {
      var b' := b[..|b| - 1];
      assert (a + b)[..|a + b| - 1] == a + b';
      NonEmptyAppend(a, b');
    }
  }

  /** A list of non-empty candidates is kept whole. */
  lemma {:induction false} NonEmptyKeepsFull(candidates: seq<string>)
    requires forall i :: 0 <= i < |candidates| ==> candidates[i] != ""
    ensures NonEmpty(candidates) == candidates
    decreases |candidates|
  {
    if candidates != [] {
      NonEmptyKeepsFull(candidates[..|candidates| - 1]);
    }
  }

  /** The components string: "" for none, otherwise each component behind a bullet. */
  function Joined(components: seq<string>): string {
    if components == [] then "" else Sep + Join(components, Sep)
  }

  /** Every component preceded by the bullet, one after the other. */
  function Bulleted(components: seq<string>): string
    decreases |components|
  {
    if components == [] then "" else Sep + components[0] + Bulleted(components[1..])
  }

  /** The join puts one bullet before each component and nothing else between them. */
  lemma {:induction false} JoinedIsBulleted(components: seq<string>)
    ensures Joined(components) == Bulleted(components)
    decreases |components|
  {
    if |components| > 1 {
      JoinedIsBulleted(components[1..]);
      assert Joined(components[1..]) == Sep + Join(components[1..], Sep);
    }
  }

  /**
    The component list of `statusline`: PR, model, context, summary,
    duration and cost, each pushed when non-empty, then joined.
   */
  method BuildComponents(prDisplay: string, modelDisplay: string, contextDisplay: string,
                         sessionSummary: string, durationDisplay: string, costDisplay: string)
    returns (componentsStr: string)
    ensures componentsStr ==
      Bulleted(NonEmpty([prDisplay, modelDisplay, contextDisplay, sessionSummary, durationDisplay, costDisplay]))
  {
    var c := [prDisplay, modelDisplay, contextDisplay, sessionSummary, durationDisplay, costDisplay];
    var components: seq<string> := [];
    if prDisplay != "" {
      components := components + [prDisplay];
    }
    assert components == NonEmpty(c[..1]);
    if modelDisplay != "" {
      components := components + [modelDisplay];
    }
    assert components == NonEmpty(c[..2]);
    if contextDisplay != "" {
      components := components + [contextDisplay];
    }
    assert c[..3][..2] == c[..2];
    assert components == NonEmpty(c[..3]);
    if sessionSummary != "" {
      components := components + [sessionSummary];
    }
    assert c[..4][..3] == c[..3];
    assert components == NonEmpty(c[..4]);
    if durationDisplay != "" {
      components := components + [durationDisplay];
    }
    assert c[..5][..4] == c[..4];
    assert components == NonEmpty(c[..5]);
    if costDisplay != "" {
      components := components + [costDisplay];
    }
    assert c[..6] == c;
    assert c[..6][..5] == c[..5];
    assert components == NonEmpty(c);
    componentsStr := if |components| == 0 then "" else Sep + Join(components, Sep);
    JoinedIsBulleted(components);
  }

  /** The bullets of two lists side by side are the bullets of the two lists in order. */
  lemma {:induction false} BulletedAppend(a: seq<string>, b: seq<string>)
    ensures Bulleted(a + b) == Bulleted(a) + Bulleted(b)
    decreases |a|
  {
    if a == [] {
      assert a + b == b;
    } else {
      assert (a + b)[1..] == a[1..] + b;
      BulletedAppend(a[1..], b);
    }
  }

  /** An empty candidate leaves no trace: no doubled bullet. */
  lemma EmptyCandidateDropped(before: seq<string>, after: seq<string>)
    ensures Bulleted(NonEmpty(before + [""] + after)) == Bulleted(NonEmpty(before + after))
  {
    NonEmptyAppend(before + [""], after);
    NonEmptyAppend(before, [""]);
    NonEmptyAppend(before, after);
    assert NonEmpty([""]) == [] by {
      assert [""][..0] == [];
      assert NonEmpty([]) == [];
    }
    assert NonEmpty(before + [""]) == NonEmpty(before);
  }

  // ---- final line -------------------------------------------------------------

  /** The bracketed branch and git status, closed by a reset. */
  function Bracket(branchShown: string, gitStatus: string): string {
    "[" + branchShown + gitStatus + "]" + Reset
  }

  /**
    The line `statusline` prints once the parts are known: path, the
    bracketed branch and git status (magenta in a worktree, green
    otherwise, without the path when it is hidden), then the components.
    Outside a repository, the path less its trailing space and the
    components.
   */
  function FormatLine(branch: string, gitDir: string, gitStatus: string, displayDir: string, componentsStr: string): (line: string)
    ensures EndsWith(line, componentsStr)
  {
    var head :=
      if branch != "" then
        if IsWorktree(gitDir) then
          Cyan + displayDir + Reset + Magenta + Bracket(BranchLabel(branch, gitDir, displayDir), gitStatus)
        else if displayDir == "" then
          Green + Bracket(branch, gitStatus)
        else
          Cyan + displayDir + Reset + Green + Bracket(branch, gitStatus)
      else
        Cyan + TrimEnd(displayDir) + Reset;
    assert (head + componentsStr)[|head|..] == componentsStr;
    head + componentsStr
  }

  /**
    A repository line ends with the bracketed branch part and the
    components; outside a worktree the bracket shows the branch itself.
   */
  lemma BranchPartOfLine(branch: string, gitDir: string, gitStatus: string, displayDir: string, componentsStr: string)
    requires branch != ""
    ensures var part := Bracket(BranchLabel(branch, gitDir, displayDir), gitStatus) + componentsStr;
      EndsWith(FormatLine(branch, gitDir, gitStatus, displayDir, componentsStr), part)
    ensures !IsWorktree(gitDir) ==> BranchLabel(branch, gitDir, displayDir) == branch
  {
    var bracket := Bracket(BranchLabel(branch, gitDir, displayDir), gitStatus);
    var line := FormatLine(branch, gitDir, gitStatus, displayDir, componentsStr);
    var pre :=
      if IsWorktree(gitDir) then Cyan + displayDir + Reset + Magenta
      else if displayDir == "" then Green
      else Cyan + displayDir + Reset + Green;
    assert line == pre + bracket + componentsStr;
    assert line == pre + (bracket + componentsStr);
    assert line[|pre|..] == bracket + componentsStr;
  }
}
