/**
  The per-session lookup cache: one JSON file per session id under /tmp
  holding three timestamped slots, the TTL test, and the three
  lookup-or-refresh procedures (`get_pr`, `get_pr_status`, and the git-info
  block of `statusline` with `fetch_git_info`). The file system is a map
  from path to file; the clock and the outputs of `gh` and `git` are
  parameters.
 */
module Cache {
  import opened Wrappers
  import opened Text
  import PrChecks

  datatype CachedValue = CachedValue(value: string, timestamp: nat)

  datatype SessionCache = SessionCache(
    prUrl: Option<CachedValue>,
    prStatus: Option<CachedValue>,
    gitInfo: Option<CachedValue>)

  const EmptyCache: SessionCache := SessionCache(None, None, None)

  /** A cache file as `read_cache` finds it: JSON that parses as a cache, or anything else. */
  datatype CacheFile = Stored(cache: SessionCache) | Corrupt

  type FileStore = map<string, CacheFile>

  /** `get_cache_path`. */
  function CachePath(sessionId: string): (path: string)
    ensures StartsWith(path, "/tmp/") && EndsWith(path, ".json")
    ensures |path| == |sessionId| + 10
  {
    "/tmp/" + sessionId + ".json"
  }

  /** Different sessions never share a cache file. */
  lemma CachePathInjective(a: string, b: string)
    requires CachePath(a) == CachePath(b)
    ensures a == b
  {
    var p := CachePath(a);
    assert |a| == |b|;
    assert a == p[5..5 + |a|];
    assert b == CachePath(b)[5..5 + |b|];
  }

  /** `read_cache`: a missing or unparsable file reads as the empty cache. */
  function ReadCache(files: FileStore, sessionId: string): SessionCache {
    var path := CachePath(sessionId);
    if path in files && files[path].Stored? then files[path].cache else EmptyCache
  }

  /** Writing one session's cache gives it back on the next read and leaves every other session's as it was. */
  lemma ReadAfterWrite(files: FileStore, sessionId: string, cache: SessionCache, other: string)
    ensures ReadCache(files[CachePath(sessionId) := Stored(cache)], sessionId) == cache
    ensures other != sessionId ==>
      ReadCache(files[CachePath(sessionId) := Stored(cache)], other) == ReadCache(files, other)
  {
    if other != sessionId && CachePath(other) == CachePath(sessionId) {
      CachePathInjective(other, sessionId);
    }
  }

  /** A slot stamped no later than `now`; the u64 subtraction in `is_cache_valid` needs it. */
  predicate NotAfter(slot: Option<CachedValue>, now: nat) {
    slot.Some? ==> slot.value.timestamp <= now
  }

  /** `is_cache_valid`: the slot holds a value younger than `ttl` seconds. */
  predicate IsCacheValid(slot: Option<CachedValue>, ttl: nat, now: nat)
    requires NotAfter(slot, now)
  {
    match slot
    case Some(cached) => now - cached.timestamp < ttl
    case None => false
  }

  /** An entry stamped T is valid exactly for T <= now < T + ttl; an empty slot never is. */
  lemma ValidityWindow(slot: Option<CachedValue>, ttl: nat, now: nat)
    requires NotAfter(slot, now)
    ensures IsCacheValid(slot, ttl, now) <==> slot.Some? && now < slot.value.timestamp + ttl
  {
  }

  /** Valid one second before the TTL runs out, invalid at the TTL. */
  lemma TtlBoundary(value: string, stamp: nat, ttl: nat)
    requires ttl > 0
    ensures IsCacheValid(Some(CachedValue(value, stamp)), ttl, stamp + ttl - 1)
    ensures !IsCacheValid(Some(CachedValue(value, stamp)), ttl, stamp + ttl)
  {
  }

  /** The stored form `<key>|<payload>`. */
  function Encode(key: string, payload: string): string {
    key + "|" + payload
  }

  /** `value.split('|').nth(1).unwrap_or("")`. */
  function Payload(value: string): string {
    Field(Split(value, '|'), 1)
  }

  /** For key and payload free of `|`, the payload comes back out of the stored form. */
  lemma PayloadRoundTrip(key: string, payload: string)
    requires '|' !in key && '|' !in payload
    ensures StartsWith(Encode(key, payload), key)
    ensures Payload(Encode(key, payload)) == payload
  {
    var e := Encode(key, payload);
    assert e[..|key|] == key;
    assert Join([key, payload], "|") == e;
    SplitJoin([key, payload], '|');
  }

  /**
    The cached payload when the slot is fresh and its value starts with
    `key`. The test is a prefix test, not an exact match of the key.
   */
  function CachedPayload(slot: Option<CachedValue>, key: string, ttl: nat, now: nat): Option<string>
    requires NotAfter(slot, now)
  {
    if IsCacheValid(slot, ttl, now) && StartsWith(slot.value.value, key) then Some(Payload(slot.value.value))
    else None
  }

  /** A slot just written for `key` answers for `key` until its TTL runs out. */
  lemma FreshSlotHits(key: string, payload: string, stamp: nat, ttl: nat, now: nat)
    requires '|' !in key && '|' !in payload
    requires stamp <= now < stamp + ttl
    ensures CachedPayload(Some(CachedValue(Encode(key, payload), stamp)), key, ttl, now) == Some(payload)
  {
    PayloadRoundTrip(key, payload);
  }

  /** An expired slot, or one whose value does not start with the key, is a miss. */
  lemma StaleOrForeignSlotMisses(slot: Option<CachedValue>, key: string, ttl: nat, now: nat)
    requires NotAfter(slot, now)
    requires slot.None? || now >= slot.value.timestamp + ttl || !StartsWith(slot.value.value, key)
    ensures CachedPayload(slot, key, ttl, now).None?
  {
  }

  const PrUrlTtl: nat := 60
  const PrStatusTtl: nat := 30
  const GitInfoTtl: nat := 5

  function PrUrlKey(branch: string): string {
    "pr_url_" + branch
  }

  function PrStatusKey(branch: string): string {
    "pr_status_" + branch
  }

  function GitKey(dir: string): string {
    "git_" + dir
  }

  /**
    Because the discriminator is a prefix test, a URL cached for branch
    `feature` is returned for branch `feat` while it is fresh.
   */
  lemma PrefixKeyCollision(url: string, stamp: nat)
    requires '|' !in url
    ensures CachedPayload(Some(CachedValue(Encode(PrUrlKey("feature"), url), stamp)), PrUrlKey("feat"), PrUrlTtl, stamp)
      == Some(url)
  {
    var v := Encode(PrUrlKey("feature"), url);
    PayloadRoundTrip(PrUrlKey("feature"), url);
    assert v[..|PrUrlKey("feat")|] == PrUrlKey("feat");
  }

  /**
    A bar in the branch name corrupts the cached URL: for branch `a|b`
    the stored value is `pr_url_a|b|<url>`, and a fresh lookup for the
    same branch answers its second bar-separated piece, `b`.
   */
  lemma BarInBranchCorruptsUrl(a: string, b: string, url: string, stamp: nat, now: nat)
    requires '|' !in a && '|' !in b && '|' !in url
    requires stamp <= now < stamp + PrUrlTtl
    ensures var key := PrUrlKey(a + "|" + b);
      CachedPayload(Some(CachedValue(Encode(key, url), stamp)), key, PrUrlTtl, now) == Some(b)
  {
    BarKeyPayload("pr_url_" + a, b, url);
    EncodeStartsWithKey(PrUrlKey(a + "|" + b), url);
    assert PrUrlKey(a + "|" + b) == ("pr_url_" + a) + "|" + b;
  }

  /** The stored form of key `k|b` and payload `url` has payload `b`. */
  lemma BarKeyPayload(k: string, b: string, url: string)
    requires '|' !in k && '|' !in b && '|' !in url
    ensures Payload(Encode(k + "|" + b, url)) == b
  {
    var w := b + "|" + url;
    BarKeyShape(k, b, url);
    SplitCons(k, '|', w);
    SplitCons(b, '|', url);
    var parts := [k] + Split(w, '|');
    assert parts[1] == b;
  }

  lemma BarKeyShape(k: string, b: string, url: string)
    ensures Encode(k + "|" + b, url) == k + "|" + (b + "|" + url)
  {
  }

  /** The stored form starts with its key, whatever the key holds. */
  lemma EncodeStartsWithKey(key: string, payload: string)
    ensures StartsWith(Encode(key, payload), key)
  {
    assert Encode(key, payload)[..|key|] == key;
  }

  /** The outcome of a lookup: what the caller gets, and the cache written back on a miss. */
  datatype Lookup<T> = Lookup(result: T, written: Option<SessionCache>)

  /** The URL `gh pr list` reports: trimmed stdout when it succeeded, "" otherwise. */
  function PrListUrl(prList: Option<string>): string {
    match prList
    case Some(stdout) => Trim(stdout)
    case None => ""
  }

  /** `get_pr` on a cache as read. */
  function PrUrlLookup(cache: SessionCache, branch: string, now: nat, prList: Option<string>): Lookup<string>
    requires NotAfter(cache.prUrl, now)
  {
    match CachedPayload(cache.prUrl, PrUrlKey(branch), PrUrlTtl, now)
    case Some(url) => Lookup(url, None)
    case None =>
      var url := PrListUrl(prList);
      Lookup(url, Some(cache.(prUrl := Some(CachedValue(Encode(PrUrlKey(branch), url), now)))))
  }

  /**
    The text `get_pr_status` builds: the trimmed checks fragment when
    `gh pr checks` succeeded with a JSON array, "" otherwise.
   */
  function ChecksStatus(checks: Option<seq<PrChecks.Check>>): string {
    match checks
    case Some(cs) => Trim(PrChecks.ChecksText(cs))
    case None => Trim("")
  }

  /** `get_pr_status` on a cache as read. */
  function PrStatusLookup(cache: SessionCache, branch: string, now: nat, checks: Option<seq<PrChecks.Check>>): Lookup<string>
    requires NotAfter(cache.prStatus, now)
  {
    match CachedPayload(cache.prStatus, PrStatusKey(branch), PrStatusTtl, now)
    case Some(status) => Lookup(status, None)
    case None =>
      var status := ChecksStatus(checks);
      Lookup(status, Some(cache.(prStatus := Some(CachedValue(Encode(PrStatusKey(branch), status), now)))))
  }

  /**
    A miss overwrites only the slot looked up, with `<key>|<payload>`
    stamped `now`; a hit writes nothing. Both lookups keep the other two
    slots exactly as read.
   */
  lemma MissTouchesOnlyItsSlot(cache: SessionCache, branch: string, now: nat, prList: Option<string>, checks: Option<seq<PrChecks.Check>>)
    requires NotAfter(cache.prUrl, now) && NotAfter(cache.prStatus, now)
    ensures var l := PrUrlLookup(cache, branch, now, prList);
      && (l.written.None? <==> CachedPayload(cache.prUrl, PrUrlKey(branch), PrUrlTtl, now).Some?)
      && (l.written.Some? ==>
           l.written.value == SessionCache(Some(CachedValue(Encode(PrUrlKey(branch), l.result), now)), cache.prStatus, cache.gitInfo)
           && l.result == PrListUrl(prList))
    ensures var l := PrStatusLookup(cache, branch, now, checks);
      && (l.written.None? <==> CachedPayload(cache.prStatus, PrStatusKey(branch), PrStatusTtl, now).Some?)
      && (l.written.Some? ==>
           l.written.value == SessionCache(cache.prUrl, Some(CachedValue(Encode(PrStatusKey(branch), l.result), now)), cache.gitInfo)
           && l.result == ChecksStatus(checks))
  {
  }

  /**
    A URL fetched at `stamp` (an empty one included) is served from the
    cache, without asking `gh` again, by every lookup for the same branch
    until 60 seconds have passed.
   */
  lemma PrUrlServedWithinTtl(cache: SessionCache, branch: string, stamp: nat, prList: Option<string>, later: nat, prList': Option<string>)
    requires NotAfter(cache.prUrl, stamp)
    requires '|' !in branch && '|' !in PrListUrl(prList)
    requires PrUrlLookup(cache, branch, stamp, prList).written.Some?
    requires stamp <= later < stamp + PrUrlTtl
    ensures var first := PrUrlLookup(cache, branch, stamp, prList);
      PrUrlLookup(first.written.value, branch, later, prList') == Lookup(first.result, None)
  {
    FreshSlotHits(PrUrlKey(branch), PrListUrl(prList), stamp, PrUrlTtl, later);
  }

  /** After 60 seconds the same lookup asks `gh` again. */
  lemma PrUrlRefetchedAfterTtl(cache: SessionCache, branch: string, now: nat, prList: Option<string>)
    requires cache.prUrl.Some? && cache.prUrl.value.timestamp + PrUrlTtl <= now
    ensures PrUrlLookup(cache, branch, now, prList) ==
      Lookup(PrListUrl(prList), Some(cache.(prUrl := Some(CachedValue(Encode(PrUrlKey(branch), PrListUrl(prList)), now)))))
  {
  }

  /**
    A checks status fetched at `stamp` is served from the cache for 30
    seconds when the branch and the check names are free of `|`.
   */
  lemma PrStatusServedWithinTtl(cache: SessionCache, branch: string, stamp: nat, checks: Option<seq<PrChecks.Check>>, later: nat, checks': Option<seq<PrChecks.Check>>)
    requires NotAfter(cache.prStatus, stamp)
    requires '|' !in branch
    requires checks.Some? ==> forall i :: 0 <= i < |checks.value| ==> '|' !in PrChecks.NameOf(checks.value[i])
    requires PrStatusLookup(cache, branch, stamp, checks).written.Some?
    requires stamp <= later < stamp + PrStatusTtl
    ensures var first := PrStatusLookup(cache, branch, stamp, checks);
      PrStatusLookup(first.written.value, branch, later, checks') == Lookup(first.result, None)
  {
    var status := ChecksStatus(checks);
    assert '|' !in status by {
      var raw := if checks.Some? then PrChecks.ChecksText(checks.value) else "";
      if checks.Some? {
        PrChecks.ChecksTextExcludesBar(checks.value);
      }
      assert status == Trim(raw);
      TrimKeepsOut(raw, '|');
    }
    FreshSlotHits(PrStatusKey(branch), status, stamp, PrStatusTtl, later);
  }

  lemma TrimKeepsOut(s: string, c: char)
    requires c !in s
    ensures c !in Trim(s)
  {
    var t := TrimStart(s);
    assert forall x :: x in t ==> x in s;
    var u := TrimEnd(t);
    assert forall x :: x in u ==> x in t;
  }

  // ---- git info -----------------------------------------------------------

  /** Branch, git directory and remote URL of the working directory. */
  datatype GitInfo = GitInfo(branch: string, gitDir: string, repoUrl: string)

  /**
    What `fetch_git_info` reads: lines 2 and 3 of `git rev-parse
    --show-toplevel --git-dir --abbrev-ref HEAD`, and the origin URL.
   */
  function FetchedGitInfo(revParseOut: string, remoteOut: string): GitInfo {
    var gitLines := Lines(revParseOut);
    GitInfo(Field(gitLines, 2), Field(gitLines, 1), remoteOut)
  }

  /** The stored form `git_<dir>|<branch>|<gitdir>|<url>`. */
  function EncodeGitInfo(cacheKey: string, info: GitInfo): string {
    cacheKey + "|" + info.branch + "|" + info.gitDir + "|" + info.repoUrl
  }

  /** The git-info slot read back: fresh, starting with the key, with at least four parts. */
  function CachedGitInfo(slot: Option<CachedValue>, cacheKey: string, now: nat): Option<GitInfo>
    requires NotAfter(slot, now)
  {
    if IsCacheValid(slot, GitInfoTtl, now) && StartsWith(slot.value.value, cacheKey) then
      var parts := Split(slot.value.value, '|');
      if |parts| >= 4 then Some(GitInfo(parts[1], parts[2], parts[3])) else None
    else None
  }

  predicate BarFree(info: GitInfo) {
    '|' !in info.branch && '|' !in info.gitDir && '|' !in info.repoUrl
  }

  /** The stored git info splits into at least four parts and parts 1 to 3 give it back. */
  lemma GitInfoRoundTrip(cacheKey: string, info: GitInfo)
    requires '|' !in cacheKey && BarFree(info)
    ensures var parts := Split(EncodeGitInfo(cacheKey, info), '|');
      |parts| >= 4 && GitInfo(parts[1], parts[2], parts[3]) == info
  {
    var parts := [cacheKey, info.branch, info.gitDir, info.repoUrl];
    assert Join(parts, "|") == EncodeGitInfo(cacheKey, info) by {
      assert Join(parts[3..], "|") == info.repoUrl;
      assert Join(parts[2..], "|") == info.gitDir + "|" + info.repoUrl;
      assert Join(parts[1..], "|") == info.branch + "|" + info.gitDir + "|" + info.repoUrl;
    }
    SplitJoin(parts, '|');
  }

  /**
    The git-info block of `statusline` on a cache as read (the empty cache
    without a session id); the refreshed cache is written only when there
    is a session id.
   */
  function GitInfoLookup(cache: SessionCache, dir: string, now: nat, revParseOut: string, remoteOut: string, persist: bool): Lookup<GitInfo>
    requires NotAfter(cache.gitInfo, now)
  {
    match CachedGitInfo(cache.gitInfo, GitKey(dir), now)
    case Some(info) => Lookup(info, None)
    case None =>
      var info := FetchedGitInfo(revParseOut, remoteOut);
      Lookup(info, if persist then Some(cache.(gitInfo := Some(CachedValue(EncodeGitInfo(GitKey(dir), info), now)))) else None)
  }

  /**
    Git info fetched at `stamp` for a session is served from the cache,
    without running git again, for 5 seconds.
   */
  lemma GitInfoServedWithinTtl(cache: SessionCache, dir: string, stamp: nat, revParseOut: string, remoteOut: string,
                               later: nat, revParseOut': string, remoteOut': string)
    requires NotAfter(cache.gitInfo, stamp)
    requires '|' !in dir && BarFree(FetchedGitInfo(revParseOut, remoteOut))
    requires GitInfoLookup(cache, dir, stamp, revParseOut, remoteOut, true).written.Some?
    requires stamp <= later < stamp + GitInfoTtl
    ensures var first := GitInfoLookup(cache, dir, stamp, revParseOut, remoteOut, true);
      GitInfoLookup(first.written.value, dir, later, revParseOut', remoteOut', true) == Lookup(first.result, None)
  {
    var info := FetchedGitInfo(revParseOut, remoteOut);
    var v := EncodeGitInfo(GitKey(dir), info);
    GitInfoRoundTrip(GitKey(dir), info);
    assert StartsWith(v, GitKey(dir)) by {
      assert v[..|GitKey(dir)|] == GitKey(dir);
    }
  }

  /**
    The git-info key is a prefix test too: info cached for the directory
    `/ab` is returned for a lookup of `/a` while it is fresh.
   */
  lemma GitKeyCollision(info: GitInfo, stamp: nat)
    requires BarFree(info)
    ensures CachedGitInfo(Some(CachedValue(EncodeGitInfo(GitKey("/ab"), info), stamp)), GitKey("/a"), stamp)
      == Some(info)
  {
    var v := EncodeGitInfo(GitKey("/ab"), info);
    GitInfoRoundTrip(GitKey("/ab"), info);
    assert v[..|GitKey("/a")|] == GitKey("/a");
  }

  /** The cache file store, the one piece of state the lookups share. */
  class CacheStore {
    var files: FileStore

    constructor (initial: FileStore)
      ensures files == initial
    {
      files := initial;
    }

    /** `read_cache` on the current files. */
    function Read(sessionId: string): SessionCache
      reads this
    {
      ReadCache(files, sessionId)
    }

    /** `write_cache`: the session's file now holds `cache`. */
    method WriteCache(sessionId: string, cache: SessionCache)
      modifies this
      ensures files == old(files)[CachePath(sessionId) := Stored(cache)]
      ensures Read(sessionId) == cache
    {
      files := files[CachePath(sessionId) := Stored(cache)];
      ReadAfterWrite(old(files), sessionId, cache, sessionId);
    }

    /** `get_pr`: the open PR's URL for `branch`, cached for 60 seconds. */
    method GetPr(branch: string, sessionId: string, now: nat, prList: Option<string>) returns (url: string)
      requires NotAfter(Read(sessionId).prUrl, now)
      modifies this
      ensures var l := PrUrlLookup(old(Read(sessionId)), branch, now, prList);
        && url == l.result
        && files == if l.written.Some? then old(files)[CachePath(sessionId) := Stored(l.written.value)] else old(files)
    {
      var cache := Read(sessionId);
      var cacheKey := PrUrlKey(branch);
      if IsCacheValid(cache.prUrl, PrUrlTtl, now) {
        var cached := cache.prUrl.value;
        if StartsWith(cached.value, cacheKey) {
          return Field(Split(cached.value, '|'), 1);
        }
      }
      url := match prList case Some(stdout) => Trim(stdout) case None => "";
      cache := cache.(prUrl := Some(CachedValue(cacheKey + "|" + url, now)));
      WriteCache(sessionId, cache);
    }

    /** `get_pr_status`: the checks fragment for `branch`, cached for 30 seconds. */
    method GetPrStatus(branch: string, sessionId: string, now: nat, checks: Option<seq<PrChecks.Check>>) returns (status: string)
      requires NotAfter(Read(sessionId).prStatus, now)
      modifies this
      ensures var l := PrStatusLookup(old(Read(sessionId)), branch, now, checks);
        && status == l.result
        && files == if l.written.Some? then old(files)[CachePath(sessionId) := Stored(l.written.value)] else old(files)
    {
      var cache := Read(sessionId);
      var cacheKey := PrStatusKey(branch);
      if IsCacheValid(cache.prStatus, PrStatusTtl, now) {
        var cached := cache.prStatus.value;
        if StartsWith(cached.value, cacheKey) {
          return Field(Split(cached.value, '|'), 1);
        }
      }
      var text := "";
      if checks.Some? {
        text := PrChecks.AggregateChecks(checks.value);
      }
      status := Trim(text);
      cache := cache.(prStatus := Some(CachedValue(cacheKey + "|" + status, now)));
      WriteCache(sessionId, cache);
    }

    /**
      `fetch_git_info`: read branch, git directory and origin URL from the
      command outputs and, with a session id, store them in `cache`'s
      git-info slot and write the cache back.
     */
    method FetchGitInfo(cacheKey: string, cache: SessionCache, sessionId: Option<string>, now: nat,
                        revParseOut: string, remoteOut: string) returns (info: GitInfo)
      modifies this
      ensures info == FetchedGitInfo(revParseOut, remoteOut)
      ensures files == if sessionId.Some? then
          old(files)[CachePath(sessionId.value) := Stored(cache.(gitInfo := Some(CachedValue(EncodeGitInfo(cacheKey, info), now))))]
        else old(files)
    {
      var gitLines := Lines(revParseOut);
      var gitDir := if |gitLines| > 1 then gitLines[1] else "";
      var branch := if |gitLines| > 2 then gitLines[2] else "";
      var repoUrl := remoteOut;
      info := GitInfo(branch, gitDir, repoUrl);
      if sessionId.Some? {
        var updated := cache.(gitInfo := Some(CachedValue(cacheKey + "|" + branch + "|" + gitDir + "|" + repoUrl, now)));
        WriteCache(sessionId.value, updated);
      }
    }

    /** The git-info block of `statusline` (5-second TTL, key `git_<dir>`). */
    method LookupGitInfo(currentDir: string, sessionId: Option<string>, now: nat, revParseOut: string, remoteOut: string)
      returns (info: GitInfo)
      requires sessionId.Some? ==> NotAfter(Read(sessionId.value).gitInfo, now)
      modifies this
      ensures var cache := if sessionId.Some? then old(Read(sessionId.value)) else EmptyCache;
        var l := GitInfoLookup(cache, currentDir, now, revParseOut, remoteOut, sessionId.Some?);
        && info == l.result
        && files == if l.written.Some? && sessionId.Some? then old(files)[CachePath(sessionId.value) := Stored(l.written.value)]
                    else old(files)
    {
      var cacheKey := GitKey(currentDir);
      var cache := if sessionId.Some? then Read(sessionId.value) else EmptyCache;
      if IsCacheValid(cache.gitInfo, GitInfoTtl, now) {
        var cached := cache.gitInfo.value;
        if StartsWith(cached.value, cacheKey) {
          var parts := Split(cached.value, '|');
          if |parts| >= 4 {
            return GitInfo(parts[1], parts[2], parts[3]);
          }
        }
      }
      info := FetchGitInfo(cacheKey, cache, sessionId, now, revParseOut, remoteOut);
    }
  }
}
