/** The code-analysis page (src/pages/Githubchat.tsx): the repository URL
    match, the mapping from an HTTP status to the message shown, and the page
    state that `fetchRepoData` and `chatWithFile` update. The GitHub and
    generative-text services are replaced by their outcomes, passed in as
    parameters. */
module GithubChat {
  import opened Wrappers
  import opened Text
  import opened JsValue
  import opened Extraction
  import opened RepoFetch

  // ---------------------------------------------------------------------
  // the repository URL

  const GithubPrefix := "github.com/"

  /** The end of the run of non-slash characters starting at `i`. */
  function SegmentEnd(s: string, i: nat): (e: nat)
    requires i <= |s|
    ensures i <= e <= |s|
    ensures forall k :: i <= k < e ==> s[k] != '/'
    ensures e < |s| ==> s[e] == '/'
    decreases |s| - i
  {
    if i == |s| || s[i] == '/' then i else SegmentEnd(s, i + 1)
  }

  /** The match of /github\.com\/([^\/]+)\/([^\/]+)/ starting at index `i`,
      if there is one: the owner segment, then the repository segment, each
      as long as possible. */
  function MatchAt(s: string, i: nat): Option<(string, string)>
    requires i <= |s|
  {
    var a := i + |GithubPrefix|;
    if a <= |s| && s[i..a] == GithubPrefix then
      var e := SegmentEnd(s, a);
      if a < e < |s| then
        var f := SegmentEnd(s, e + 1);
        if e + 1 < f then Some((s[a..e], s[e + 1..f])) else None
      else None
    else None
  }

  /** Reference reading of a match at `i`: the prefix, a nonempty owner and
      repository without slashes separated by one slash, and the repository
      ending where the text ends or a slash follows. */
  predicate IsRepoMatch(s: string, i: nat, owner: string, repo: string) {
    var end := i + |GithubPrefix| + |owner| + 1 + |repo|;
    && end <= |s|
    && s[i..end] == GithubPrefix + owner + "/" + repo
    && owner != [] && repo != [] && '/' !in owner && '/' !in repo
    && (end == |s| || s[end] == '/')
  }

  /** The scan at one position agrees with the reference reading, both ways. */
  lemma MatchAtIsRepoMatch(s: string, i: nat, owner: string, repo: string)
    requires i <= |s|
    ensures MatchAt(s, i) == Some((owner, repo)) <==> IsRepoMatch(s, i, owner, repo)
  {
    if MatchAt(s, i) == Some((owner, repo)) {
      MatchAtSound(s, i);
    }
    if IsRepoMatch(s, i, owner, repo) {
      MatchAtComplete(s, i, owner, repo);
    }
  }

  lemma MatchAtSound(s: string, i: nat)
    requires i <= |s| && MatchAt(s, i).Some?
    ensures IsRepoMatch(s, i, MatchAt(s, i).value.0, MatchAt(s, i).value.1)
  {
    var a := i + |GithubPrefix|;
    var e := SegmentEnd(s, a);
    var f := SegmentEnd(s, e + 1);
    assert s[i..a] == GithubPrefix && a < e < |s| && e + 1 < f;
    var owner, repo := s[a..e], s[e + 1..f];
    assert MatchAt(s, i).value == (owner, repo);
    SliceInFour(s, i, a, e, f);
    assert s[i..f] == GithubPrefix + owner + "/" + repo;
    assert '/' !in owner by {
      forall k | 0 <= k < |owner| ensures owner[k] != '/' {
        assert owner[k] == s[a + k];
      }
    }
    assert '/' !in repo by {
      forall k | 0 <= k < |repo| ensures repo[k] != '/' {
        assert repo[k] == s[e + 1 + k];
      }
    }
  }

  /** A slice cut at `a` and around the single character at `e`. */
  lemma SliceInFour(s: string, i: nat, a: nat, e: nat, f: nat)
    requires i <= a <= e < f <= |s|
    ensures s[i..f] == s[i..a] + s[a..e] + [s[e]] + s[e + 1..f]
  {
    assert s[i..f] == s[i..a] + s[a..f];
    assert s[a..f] == s[a..e] + s[e..f];
    assert s[e..f] == [s[e]] + s[e + 1..f];
  }

  lemma MatchAtComplete(s: string, i: nat, owner: string, repo: string)
    requires i <= |s| && IsRepoMatch(s, i, owner, repo)
    ensures MatchAt(s, i) == Some((owner, repo))
  {
    var a := i + |GithubPrefix|;
    var e := a + |owner|;
    var end := e + 1 + |repo|;
    RepoMatchParts(s, i, owner, repo);
    forall k | a <= k < e ensures s[k] != '/' {
      assert s[k] == owner[k - a];
    }
    forall k | e + 1 <= k < end ensures s[k] != '/' {
      assert s[k] == repo[k - e - 1];
    }
    SegmentEndAt(s, a, e);
    SegmentEndAt(s, e + 1, end);
    MatchAtSegments(s, i, e, end);
  }

  /** The pieces of a reference match, by position in the text. */
  lemma RepoMatchParts(s: string, i: nat, owner: string, repo: string)
    requires i <= |s| && IsRepoMatch(s, i, owner, repo)
    ensures var a := i + |GithubPrefix|;
            var e := a + |owner|;
            && s[i..a] == GithubPrefix && s[a..e] == owner
            && s[e] == '/' && s[e + 1..e + 1 + |repo|] == repo
  {
    var p := |GithubPrefix|;
    var a := i + p;
    var e := a + |owner|;
    var end := e + 1 + |repo|;
    var t := s[i..end];
    RepoUrlSplit(GithubPrefix, owner, repo);
    SliceOfSlice(s, i, end, 0, p);
    SliceOfSlice(s, i, end, p, p + |owner|);
    SliceOfSlice(s, i, end, p + |owner| + 1, end - i);
    assert s[e] == t[p + |owner|];
  }

  /** The match at `i` when the prefix is there and the two segments end at
      `e` and `f`. */
  lemma MatchAtSegments(s: string, i: nat, e: nat, f: nat)
    requires i + |GithubPrefix| <= |s| && s[i..i + |GithubPrefix|] == GithubPrefix
    requires i + |GithubPrefix| < e < |s| && SegmentEnd(s, i + |GithubPrefix|) == e
    requires e + 1 < f && SegmentEnd(s, e + 1) == f
    ensures MatchAt(s, i) == Some((s[i + |GithubPrefix|..e], s[e + 1..f]))
  {
  }

  /** The parts of a repository URL text, recovered by position. */
  lemma RepoUrlSplit(prefix: string, owner: string, repo: string)
    ensures var x := prefix + owner + "/" + repo;
            && x[..|prefix|] == prefix
            && x[|prefix|..|prefix| + |owner|] == owner
            && x[|prefix| + |owner|] == '/'
            && x[|prefix| + |owner| + 1..] == repo
  {
  }

  lemma SliceOfSlice(s: string, i: nat, j: nat, m: nat, n: nat)
    requires i <= j <= |s| && m <= n <= j - i
    ensures s[i..j][m..n] == s[i + m..i + n]
  {
    var x, y := s[i..j][m..n], s[i + m..i + n];
    assert |x| == |y|;
    forall k | 0 <= k < |x| ensures x[k] == y[k] {
      assert x[k] == s[i..j][m + k] == s[i + m + k];
    }
  }

  /** The run of non-slashes from `i` ends at `e` when `e` is the first slash
      (or the end of the text). */
  lemma {:induction false} SegmentEndAt(s: string, i: nat, e: nat)
    requires i <= e <= |s|
    requires forall k :: i <= k < e ==> s[k] != '/'
    requires e == |s| || s[e] == '/'
    ensures SegmentEnd(s, i) == e
    decreases e - i
  {
    if i < e {
      SegmentEndAt(s, i + 1, e);
    }
  }

  /** The leftmost match at or after `i`. */
  function MatchFrom(s: string, i: nat): Option<(string, string)>
    requires i <= |s|
    decreases |s| - i
  {
    if MatchAt(s, i).Some? then MatchAt(s, i)
    else if i == |s| then None
    else MatchFrom(s, i + 1)
  }

  /** The scan from `i` returns the match at the first position where there
      is one, and nothing when there is none. */
  lemma {:induction false} MatchFromLeftmost(s: string, i: nat)
    requires i <= |s|
    ensures MatchFrom(s, i).Some? ==>
              exists j :: i <= j <= |s| && MatchAt(s, j) == MatchFrom(s, i)
                          && forall k :: i <= k < j ==> MatchAt(s, k).None?
    ensures MatchFrom(s, i).None? ==> forall k :: i <= k <= |s| ==> MatchAt(s, k).None?
    decreases |s| - i
  {
    if MatchAt(s, i).Some? {
      assert MatchFrom(s, i) == MatchAt(s, i);
    } else if i < |s| {
      assert MatchFrom(s, i) == MatchFrom(s, i + 1);
      MatchFromLeftmost(s, i + 1);
      if MatchFrom(s, i + 1).Some? {
        var j :| i + 1 <= j <= |s| && MatchAt(s, j) == MatchFrom(s, i + 1)
                 && forall k :: i + 1 <= k < j ==> MatchAt(s, k).None?;
        assert forall k :: i <= k < j ==> MatchAt(s, k).None?;
        assert i <= j <= |s| && MatchAt(s, j) == MatchFrom(s, i);
      }
    } else {
      assert MatchFrom(s, i).None?;
    }
  }

  /** `repoUrl.match(urlPattern)`, giving `[, owner, repo]`. */
  function MatchRepoUrl(s: string): Option<(string, string)> {
    MatchFrom(s, 0)
  }

  /** A usual repository URL: a scheme and host prefix without a 'g', then
      "github.com/", owner, repository, and nothing or a further path. */
  lemma RepoUrlParts(pre: string, owner: string, repo: string, rest: string)
    requires 'g' !in pre
    requires ValidName(owner) && ValidName(repo)
    requires rest == [] || rest[0] == '/'
    ensures MatchRepoUrl(pre + GithubPrefix + owner + "/" + repo + rest) == Some((owner, repo))
  {
    var s := pre + GithubPrefix + owner + "/" + repo + rest;
    var i := |pre|;
    var end := i + |GithubPrefix| + |owner| + 1 + |repo|;
    assert s[i..end] == GithubPrefix + owner + "/" + repo;
    assert end < |s| ==> s[end] == rest[0];
    assert IsRepoMatch(s, i, owner, repo);
    MatchAtIsRepoMatch(s, i, owner, repo);
    forall k | 0 <= k < i ensures MatchAt(s, k).None? {
      assert s[k] == pre[k];
      assert k + |GithubPrefix| <= |s| ==> s[k..k + |GithubPrefix|][0] == s[k];
    }
    MatchFromSkips(s, 0, i);
  }

  /** When nothing matches before `i`, the leftmost match is the one at `i`. */
  lemma {:induction false} MatchFromSkips(s: string, j: nat, i: nat)
    requires j <= i <= |s|
    requires forall k :: j <= k < i ==> MatchAt(s, k).None?
    ensures MatchFrom(s, j) == MatchFrom(s, i)
    decreases i - j
  {
    if j < i {
      MatchFromSkips(s, j + 1, i);
    }
  }

  // ---------------------------------------------------------------------
  // messages

  const EnterUrlMessage := "Please enter a repository URL"
  const TokenMissingMessage := "GitHub PAT token is not configured in environment variables"
  const InvalidUrlMessage := "Invalid GitHub repository URL"
  const AuthFailedMessage := "Authentication failed. " + "Check your GitHub PAT token in environment variables"
  const RateLimitMessage := "Rate limit exceeded " + "or insufficient permissions with current token"
  const NotFoundMessage := "Repository not found or private. " + "Check permissions of your PAT token"
  const FetchFailedPrefix := "Failed to fetch repository data: "
  const AnalyzeFailedPrefix := "Failed to analyze file: "

  /** The message `fetchRepoData` shows for a failure with the given HTTP
      status (`None` when the error carries no response) and error message. */
  function StatusMessage(status: Option<int>, message: string): (r: string)
    ensures r == AuthFailedMessage <==> status == Some(401)
    ensures r == RateLimitMessage <==> status == Some(403)
    ensures r == NotFoundMessage <==> status == Some(404)
    ensures status != Some(401) && status != Some(403) && status != Some(404) ==>
              r == FetchFailedPrefix + (if message == "" then "Unknown error" else message)
  {
    assert AuthFailedMessage[0] != RateLimitMessage[0] && AuthFailedMessage[0] != NotFoundMessage[0];
    assert RateLimitMessage[1] != NotFoundMessage[1];
    if status == Some(401) then AuthFailedMessage
    else if status == Some(403) then RateLimitMessage
    else if status == Some(404) then NotFoundMessage
    else
      var r := FetchFailedPrefix + (if message == "" then "Unknown error" else message);
      assert r[0] == 'F' && AuthFailedMessage[0] == 'A';
      assert RateLimitMessage[0] == 'R' && NotFoundMessage[0] == 'R';
      r
  }

  // ---------------------------------------------------------------------
  // service outcomes

  /** The outcome of listing the repository root: the listing with every
      fetch below it resolved, or the failed request's status and message. */
  datatype Listing = Listed(nodes: seq<Node>) | ListingFailed(status: Option<int>, message: string)

  /** `getProjectOverview` after the request: the reply text (or the failed
      request's message) run through the parse ladder. */
  function OverviewOutcome(reply: Result<string, string>, parse: Parser): (r: Result<Json, string>)
    ensures reply.Err? ==> r == Err(reply.error)
    ensures reply.Ok? ==> r == ParseJsonResponse(reply.value, parse)
  {
    match reply
    case Err(m) => Err(m)
    case Ok(text) => ParseJsonResponse(text, parse)
  }

  /** `chatWithFile` after the request: parse ladder, then required fields. */
  function FileAnalysisOutcome(reply: Result<string, string>, parse: Parser): (r: Result<Json, string>)
    ensures r.Ok? ==> reply.Ok? && ParseJsonResponse(reply.value, parse) == Ok(r.value)
  {
    match reply
    case Err(m) => Err(m)
    case Ok(text) =>
      match ParseJsonResponse(text, parse)
      case Err(m) => Err(m)
      case Ok(v) => ValidateFileAnalysis(v)
  }

  /** The file analysis is accepted exactly when the reply arrived, the parse
      ladder produced a value, and that value is an object with every
      required field. */
  lemma FileAnalysisAccepted(reply: Result<string, string>, parse: Parser)
    ensures FileAnalysisOutcome(reply, parse).Ok? <==>
              && reply.Ok?
              && ParseJsonResponse(reply.value, parse).Ok?
              && ParseJsonResponse(reply.value, parse).value.JObject?
              && forall f :: f in FileAnalysisFields ==>
                   Lookup(ParseJsonResponse(reply.value, parse).value.members, f).Some?
  {
    if reply.Ok? && ParseJsonResponse(reply.value, parse).Ok? {
      ValidateFileAnalysisAccepts(ParseJsonResponse(reply.value, parse).value);
    }
  }

  // ---------------------------------------------------------------------
  // the page state

  /** The state of the code-analysis page. The path-to-content dictionary is
      held as its keys in enumeration order and the map they index. */
  class GitHubChatPage {
    var repoData: Option<seq<Node>>
    var fileKeys: seq<string>
    var fileContents: map<string, string>
    var projectOverview: Option<Json>
    var selectedFile: Option<string>
    var fileResponse: Option<Json>
    var loading: bool
    var error: string
    const tokenConfigured: bool

    /** The dictionary's key list names exactly its keys, each once. */
    ghost predicate Valid()
      reads this
    {
      && (forall k :: k in fileKeys <==> k in fileContents)
      && (forall i, j :: 0 <= i < j < |fileKeys| ==> fileKeys[i] != fileKeys[j])
    }

    constructor (tokenConfigured: bool)
      ensures Valid()
      ensures this.tokenConfigured == tokenConfigured
      ensures repoData.None? && fileKeys == [] && fileContents == map[] && projectOverview.None?
      ensures selectedFile.None? && fileResponse.None? && !loading && error == ""
    {
      this.tokenConfigured := tokenConfigured;
      repoData := None;
      fileKeys := [];
      fileContents := map[];
      projectOverview := None;
      selectedFile := None;
      fileResponse := None;
      loading := false;
      error := "";
    }

    /** `fetchRepoData`: the three guards in order (empty URL, missing token,
        URL that does not match), each setting only its message; then the
        root listing, the walk, the dictionary, and the overview. A failure
        after the dictionary was stored keeps it. */
    method FetchRepoData(repoUrl: string, root: Listing, overviewReply: Result<string, string>, parse: Parser)
      requires Valid()
      modifies this
      ensures Valid()
      ensures selectedFile == old(selectedFile) && fileResponse == old(fileResponse)
      ensures repoUrl == "" ==> error == EnterUrlMessage && unchanged(this`repoData, this`fileKeys, this`fileContents, this`projectOverview, this`loading)
      ensures repoUrl != "" && !tokenConfigured ==>
                error == TokenMissingMessage && unchanged(this`repoData, this`fileKeys, this`fileContents, this`projectOverview, this`loading)
      ensures repoUrl != "" && tokenConfigured && MatchRepoUrl(repoUrl).None? ==>
                error == InvalidUrlMessage && unchanged(this`repoData, this`fileKeys, this`fileContents, this`projectOverview, this`loading)
      ensures repoUrl != "" && tokenConfigured && MatchRepoUrl(repoUrl).Some? ==> !loading
      ensures repoUrl != "" && tokenConfigured && MatchRepoUrl(repoUrl).Some? && root.ListingFailed? ==>
                && error == StatusMessage(root.status, root.message)
                && unchanged(this`repoData, this`fileKeys, this`fileContents, this`projectOverview)
      ensures repoUrl != "" && tokenConfigured && MatchRepoUrl(repoUrl).Some? && root.Listed? ==>
                && repoData == Some(root.nodes)
                && fileKeys == KeyOrder(FetchAll(root.nodes, ""))
                && fileContents == ContentsOf(FetchAll(root.nodes, ""))
                && (OverviewOutcome(overviewReply, parse).Ok? ==>
                      projectOverview == Some(OverviewOutcome(overviewReply, parse).value) && error == "")
                && (OverviewOutcome(overviewReply, parse).Err? ==>
                      && projectOverview == old(projectOverview)
                      && error == StatusMessage(None, OverviewOutcome(overviewReply, parse).error))
    {
      if repoUrl == "" {
        error := EnterUrlMessage;
        return;
      }
      if !tokenConfigured {
        error := TokenMissingMessage;
        return;
      }
      if MatchRepoUrl(repoUrl).None? {
        error := InvalidUrlMessage;
        return;
      }
      loading := true;
      error := "";
      match root {
        case ListingFailed(status, message) =>
          error := StatusMessage(status, message);
        case Listed(nodes) =>
          LoadTree(nodes, OverviewOutcome(overviewReply, parse));
      }
      loading := false;
    }

    /** The successful branch of `fetchRepoData`: the listing, the walked
        files under their paths, then the overview or the message of its
        failure. */
    method LoadTree(nodes: seq<Node>, overview: Result<Json, string>)
      requires Valid()
      modifies this`repoData, this`fileKeys, this`fileContents, this`projectOverview, this`error
      ensures Valid()
      ensures repoData == Some(nodes)
      ensures fileKeys == KeyOrder(FetchAll(nodes, "")) && fileContents == ContentsOf(FetchAll(nodes, ""))
      ensures overview.Ok? ==> projectOverview == Some(overview.value) && error == old(error)
      ensures overview.Err? ==>
                projectOverview == old(projectOverview) && error == StatusMessage(None, overview.error)
    {
      repoData := Some(nodes);
      var files := FetchAll(nodes, "");
      var keys, contents := BuildContentsMap(files);
      KeyOrderMatchesContents(files);
      fileKeys := keys;
      fileContents := contents;
      if overview.Ok? {
        projectOverview := Some(overview.value);
      } else {
        error := StatusMessage(None, overview.error);
      }
    }

    /** `chatWithFile`: selects the file, then stores the analysis if it
        passes the ladder and the field check, or the prefixed message of the
        first failure; the previous analysis stays on failure. */
    method ChatWithFile(fileName: string, reply: Result<string, string>, parse: Parser)
      requires Valid()
      modifies this`selectedFile, this`fileResponse, this`loading, this`error
      ensures Valid()
      ensures selectedFile == Some(fileName) && !loading
      ensures FileAnalysisOutcome(reply, parse).Ok? ==>
                fileResponse == Some(FileAnalysisOutcome(reply, parse).value) && error == ""
      ensures FileAnalysisOutcome(reply, parse).Err? ==>
                fileResponse == old(fileResponse) && error == AnalyzeFailedPrefix + FileAnalysisOutcome(reply, parse).error
    {
      ShowFileAnalysis(fileName, FileAnalysisOutcome(reply, parse));
    }

    /** The state changes of `chatWithFile` for a given outcome of the
        request and the checks. */
    method ShowFileAnalysis(fileName: string, outcome: Result<Json, string>)
      requires Valid()
      modifies this`selectedFile, this`fileResponse, this`loading, this`error
      ensures Valid()
      ensures selectedFile == Some(fileName) && !loading
      ensures outcome.Ok? ==> fileResponse == Some(outcome.value) && error == ""
      ensures outcome.Err? ==> fileResponse == old(fileResponse) && error == AnalyzeFailedPrefix + outcome.error
    {
      selectedFile := Some(fileName);
      loading := true;
      error := "";
      if outcome.Ok? {
        fileResponse := Some(outcome.value);
      } else {
        error := AnalyzeFailedPrefix + outcome.error;
      }
      loading := false;
    }
  }

  /** After a successful fetch of a well-formed tree, the page holds every
      fetched file under its own path, with the keys in walk order (so the
      overview prompt shows the first five files the walk reached). */
  lemma FetchedTreeOnPage(nodes: seq<Node>)
    requires WellFormed(nodes)
    ensures var files := FetchAll(nodes, "");
            forall i :: 0 <= i < |files| && files[i].name != ProtoKey ==>
              files[i].name in ContentsOf(files) && ContentsOf(files)[files[i].name] == files[i].content
    ensures var files := FetchAll(nodes, "");
            (forall i :: 0 <= i < |nodes| ==> nodes[i].name != ProtoKey) ==>
              KeyOrder(files) == seq(|files|, i requires 0 <= i < |files| => files[i].name)
  {
    var files := FetchAll(nodes, "");
    FetchAllDistinct(nodes, "");
    DistinctContents(files);
    ProtoKeyNeedsRootName(nodes);
    if forall i :: 0 <= i < |nodes| ==> nodes[i].name != ProtoKey {
      forall i | 0 <= i < |files| ensures files[i].name != ProtoKey {
        assert files[i] in files;
      }
    }
  }
}
