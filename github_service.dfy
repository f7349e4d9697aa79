/**
 * `getRepoContent(repoUrl)`: parse the URL, ask the forge for the default
 * branch, that branch's tree SHA and the recursive tree, select the files,
 * fetch each file's raw text and return one record per file.
 *
 * The HTTP GETs are not performed here: the forge's answers are the fields of
 * a `Forge` value, each a function from the exact URL the source builds to
 * the response or an HTTP error. A run reports every URL it requested, in
 * order, beside its outcome.
 */
module GithubService {
  import opened Wrappers
  import opened RepoUrl
  import opened Relevance
  import opened Selection

  /** An HTTP failure as axios reports it: a status when a response arrived, and a message. */
  datatype HttpError = HttpError(status: Option<nat>, message: string)

  /** The field read from `GET /repos/{owner}/{repo}`: `default_branch`, possibly missing. */
  datatype RepoMeta = RepoMeta(defaultBranch: Option<string>)

  /** The field read from the branch lookup: `commit.commit.tree.sha`, None when any link is missing. */
  datatype BranchInfo = BranchInfo(treeSha: Option<string>)

  /** The field read from the recursive tree lookup: `tree`, possibly missing. */
  datatype TreeListing = TreeListing(tree: Option<seq<TreeEntry>>)

  /** The forge's answer to each GET, by requested URL. */
  datatype Forge = Forge(
    repoMeta: string -> Result<RepoMeta, HttpError>,
    branchInfo: string -> Result<BranchInfo, HttpError>,
    treeListing: string -> Result<TreeListing, HttpError>,
    rawContent: string -> Result<string, HttpError>)

  /** `metadata` of a record. */
  datatype Metadata = Metadata(source: string)

  /** One returned record: the file's raw text and where it came from. */
  datatype ContentRecord = ContentRecord(pageContent: string, metadata: Metadata)

  /** Why a lookup stage failed; the `catch` turns each into the wrapped "Failed to fetch repository content" error. */
  datatype Cause =
    | HttpFailed(error: HttpError)
    | NoDefaultBranch
    | NoTreeSha
    | InvalidTreeResponse
    | NoRelevantFiles

  /**
   * The error `getRepoContent` rejects with. The URL error is thrown before
   * the `try` and reaches the caller as it is. A failure of the three lookups
   * or of the selection is caught and wrapped. A failed content fetch rejects
   * the promise the `try` returns without awaiting it, so the `catch` never
   * sees it and the caller gets the HTTP error itself.
   */
  datatype RepoError =
    | InvalidUrlFormat
    | FetchFailed(cause: Cause)
    | ContentFetchFailed(error: HttpError)

  /** The URLs requested, in order, and the outcome. */
  datatype Run = Run(requests: seq<string>, outcome: Result<seq<ContentRecord>, RepoError>)

  function RepoMetaUrl(r: RepoRef): string
  {
    "https://api.github.com/repos/" + r.owner + "/" + r.repo
  }

  function BranchInfoUrl(r: RepoRef, branch: string): string
  {
    RepoMetaUrl(r) + "/branches/" + branch
  }

  function TreeUrl(r: RepoRef, sha: string): string
  {
    RepoMetaUrl(r) + "/git/trees/" + sha + "?recursive=1"
  }

  function ContentUrl(r: RepoRef, branch: string, path: string): string
  {
    "https://raw.githubusercontent.com/" + r.owner + "/" + r.repo + "/" + branch + "/" + path
  }

  /**
   * The content URLs of one repository and branch tell files apart: equal
   * URLs mean equal paths, so each fetched text answers its own file.
   */
  lemma {:induction false} ContentUrlInjective(r: RepoRef, branch: string, p: string, q: string)
    ensures ContentUrl(r, branch, p) == ContentUrl(r, branch, q) ==> p == q
  {
    var front := ContentUrl(r, branch, "");
    assert ContentUrl(r, branch, p) == front + p;
    assert ContentUrl(r, branch, q) == front + q;
    assert (front + p)[|front|..] == p;
    assert (front + q)[|front|..] == q;
  }

  /** JavaScript truthiness of an optional string: present and not empty. */
  predicate IsTruthy(s: Option<string>)
  {
    s.Some? && s.value != ""
  }

  /**
   * The content URL of every selected file, in selection order: all of them
   * are requested at once. The `ensures` is this definition stated
   * element-wise; what the URLs mean is in FetchSelected, RunAfterTree and
   * ContentUrlInjective.
   */
  function ContentUrls(r: RepoRef, branch: string, files: seq<TreeEntry>): (urls: seq<string>)
    ensures |urls| == |files|
    ensures forall k :: 0 <= k < |files| ==> urls[k] == ContentUrl(r, branch, files[k].path)
  {
    seq(|files|, k requires 0 <= k < |files| => ContentUrl(r, branch, files[k].path))
  }

  /**
   * `Promise.all(filesToFetch.map(...))`: one record per file, in order, when
   * every fetch succeeds; otherwise the error of a file whose fetch failed.
   */
  function FetchContents(r: RepoRef, branch: string, files: seq<TreeEntry>,
                         raw: string -> Result<string, HttpError>): (out: Result<seq<ContentRecord>, HttpError>)
    ensures out.Success? <==> forall k :: 0 <= k < |files| ==> raw(ContentUrl(r, branch, files[k].path)).Success?
    ensures out.Success? ==> |out.value| == |files|
    ensures out.Success? ==> forall k :: 0 <= k < |files| ==>
      out.value[k] == ContentRecord(raw(ContentUrl(r, branch, files[k].path)).value, Metadata(files[k].path))
    ensures out.Failure? ==> exists k :: 0 <= k < |files| && raw(ContentUrl(r, branch, files[k].path)) == Failure(out.error)
  {
    if files == [] then Success([])
    else
      match raw(ContentUrl(r, branch, files[0].path))
      case Failure(e) => Failure(e)
      case Success(text) =>
        match FetchContents(r, branch, files[1..], raw)
        case Failure(e) => Failure(e)
        case Success(rest) => Success([ContentRecord(text, Metadata(files[0].path))] + rest)
  }

  /**
   * The steps after the tree listing: select, fail when nothing is selected,
   * else request every selected file's content and return one record per
   * file, or the unwrapped error of a file whose fetch failed.
   */
  function FetchSelected(r: RepoRef, branch: string, tree: seq<TreeEntry>, forge: Forge): (run: Run)
    ensures var files := SelectFiles(tree);
      && run.requests == ContentUrls(r, branch, files)
      && (files == [] <==> run.outcome == Failure(FetchFailed(NoRelevantFiles)))
      && (run.outcome.Failure? && files != [] ==>
            && run.outcome.error.ContentFetchFailed?
            && exists k :: 0 <= k < |files| && RawAnswer(forge, r, branch, files[k]) == Failure(run.outcome.error.error))
      && (run.outcome.Success? <==> files != [] && forall k :: 0 <= k < |files| ==> RawAnswer(forge, r, branch, files[k]).Success?)
      && (run.outcome.Success? ==>
            && |run.outcome.value| == |files|
            && forall k :: 0 <= k < |files| ==>
                 run.outcome.value[k] == ContentRecord(RawAnswer(forge, r, branch, files[k]).value, Metadata(files[k].path)))
  {
    var files := SelectFiles(tree);
    if |files| == 0 then Run([], Failure(FetchFailed(NoRelevantFiles)))
    else
      var urls := ContentUrls(r, branch, files);
      match FetchContents(r, branch, files, forge.rawContent)
      case Failure(e) => Run(urls, Failure(ContentFetchFailed(e)))
      case Success(records) => Run(urls, Success(records))
  }

  /** `getRepoContent(repoUrl)`, with the forge's answers given by `forge`. */
  function GetRepoContent(url: string, forge: Forge): (run: Run)
    ensures ParseRepoUrl(url).None? <==> run.outcome == Failure(InvalidUrlFormat)
    ensures ParseRepoUrl(url).None? ==> run.requests == []
    ensures ParseRepoUrl(url).Some? ==> 1 <= |run.requests| && run.requests[0] == RepoMetaUrl(ParseRepoUrl(url).value)
    ensures run.outcome.Success? ==> 1 <= |run.outcome.value| <= MaxFiles
    ensures run.outcome.Success? ==> |run.requests| == 3 + |run.outcome.value|
  {
    match ParseRepoUrl(url)
    case None => Run([], Failure(InvalidUrlFormat))
    case Some(r) =>
      var metaUrl := RepoMetaUrl(r);
      match forge.repoMeta(metaUrl)
      case Failure(e) => Run([metaUrl], Failure(FetchFailed(HttpFailed(e))))
      case Success(meta) =>
        if !IsTruthy(meta.defaultBranch) then Run([metaUrl], Failure(FetchFailed(NoDefaultBranch)))
        else
          var branch := meta.defaultBranch.value;
          var branchUrl := BranchInfoUrl(r, branch);
          match forge.branchInfo(branchUrl)
          case Failure(e) => Run([metaUrl, branchUrl], Failure(FetchFailed(HttpFailed(e))))
          case Success(info) =>
            if !IsTruthy(info.treeSha) then Run([metaUrl, branchUrl], Failure(FetchFailed(NoTreeSha)))
            else
              var treeUrl := TreeUrl(r, info.treeSha.value);
              match forge.treeListing(treeUrl)
              case Failure(e) => Run([metaUrl, branchUrl, treeUrl], Failure(FetchFailed(HttpFailed(e))))
              case Success(listing) =>
                if listing.tree.None? then Run([metaUrl, branchUrl, treeUrl], Failure(FetchFailed(InvalidTreeResponse)))
                else
                  var rest := FetchSelected(r, branch, listing.tree.value, forge);
                  Run([metaUrl, branchUrl, treeUrl] + rest.requests, rest.outcome)
  }

  /**
   * Once the URL parses and the forge has answered the three lookups with a
   * branch, a tree SHA and a tree, the run requests the three lookups and
   * then the content of each selected file, and: fails with NoRelevantFiles
   * when nothing is selected; fails with a failing file's HTTP error when any
   * content fetch fails; and otherwise returns exactly one record per
   * selected file, in selection order, whose source is the file's path.
   */
  lemma RunAfterTree(url: string, forge: Forge, r: RepoRef, branch: string, sha: string, tree: seq<TreeEntry>)
    requires ParseRepoUrl(url) == Some(r)
    requires forge.repoMeta(RepoMetaUrl(r)) == Success(RepoMeta(Some(branch))) && branch != ""
    requires forge.branchInfo(BranchInfoUrl(r, branch)) == Success(BranchInfo(Some(sha))) && sha != ""
    requires forge.treeListing(TreeUrl(r, sha)) == Success(TreeListing(Some(tree)))
    ensures var run, files := GetRepoContent(url, forge), SelectFiles(tree);
      && run.requests == [RepoMetaUrl(r), BranchInfoUrl(r, branch), TreeUrl(r, sha)] + ContentUrls(r, branch, files)
      && (files == [] ==> run.outcome == Failure(FetchFailed(NoRelevantFiles)))
      && (files != [] && (exists k :: 0 <= k < |files| && RawAnswer(forge, r, branch, files[k]).Failure?) ==>
            run.outcome.Failure? && run.outcome.error.ContentFetchFailed?
            && exists k :: 0 <= k < |files| && RawAnswer(forge, r, branch, files[k]) == Failure(run.outcome.error.error))
      && (files != [] && (forall k :: 0 <= k < |files| ==> RawAnswer(forge, r, branch, files[k]).Success?) ==>
            run.outcome.Success? && |run.outcome.value| == |files|
            && forall k :: 0 <= k < |files| ==>
                 run.outcome.value[k].metadata.source == files[k].path
                 && run.outcome.value[k].pageContent == RawAnswer(forge, r, branch, files[k]).value)
  {
    ThroughTree(url, forge, r, branch, sha, tree);
    var files := SelectFiles(tree);
    if files == [] {
      assert ContentUrls(r, branch, files) == [];
    }
  }

  /** With all three lookups answered, the run is the three lookups followed by the selection step. */
  lemma ThroughTree(url: string, forge: Forge, r: RepoRef, branch: string, sha: string, tree: seq<TreeEntry>)
    requires ParseRepoUrl(url) == Some(r)
    requires forge.repoMeta(RepoMetaUrl(r)) == Success(RepoMeta(Some(branch))) && branch != ""
    requires forge.branchInfo(BranchInfoUrl(r, branch)) == Success(BranchInfo(Some(sha))) && sha != ""
    requires forge.treeListing(TreeUrl(r, sha)) == Success(TreeListing(Some(tree)))
    ensures var rest := FetchSelected(r, branch, tree, forge);
      GetRepoContent(url, forge) == Run([RepoMetaUrl(r), BranchInfoUrl(r, branch), TreeUrl(r, sha)] + rest.requests, rest.outcome)
  {
  }

  /** The forge's answer for one file's raw content. */
  function RawAnswer(forge: Forge, r: RepoRef, branch: string, file: TreeEntry): Result<string, HttpError>
  {
    forge.rawContent(ContentUrl(r, branch, file.path))
  }

  /**
   * Every record of a successful run comes from a relevant path, and its
   * content is the forge's answer to the request made for it: the record at
   * position k answers the request after the three lookups at position k,
   * which is the raw-content URL of that record's own path on the default
   * branch (and by ContentUrlInjective, of no other path).
   */
  lemma SuccessfulRecords(url: string, forge: Forge)
    ensures var run := GetRepoContent(url, forge);
      run.outcome.Success? ==>
        && ParseRepoUrl(url).Some?
        && forge.repoMeta(RepoMetaUrl(ParseRepoUrl(url).value)).Success?
        && IsTruthy(forge.repoMeta(RepoMetaUrl(ParseRepoUrl(url).value)).value.defaultBranch)
        && var r := ParseRepoUrl(url).value;
           var branch := forge.repoMeta(RepoMetaUrl(r)).value.defaultBranch.value;
           forall k :: 0 <= k < |run.outcome.value| ==>
             && IsRelevantFile(run.outcome.value[k].metadata.source)
             && run.requests[3 + k] == ContentUrl(r, branch, run.outcome.value[k].metadata.source)
             && forge.rawContent(run.requests[3 + k]) == Success(run.outcome.value[k].pageContent)
  {
    var run := GetRepoContent(url, forge);
    if run.outcome.Success? {
      var r := ParseRepoUrl(url).value;
      var meta := forge.repoMeta(RepoMetaUrl(r)).value;
      var branch := meta.defaultBranch.value;
      var info := forge.branchInfo(BranchInfoUrl(r, branch)).value;
      var tree := forge.treeListing(TreeUrl(r, info.treeSha.value)).value.tree.value;
      var rest := FetchSelected(r, branch, tree, forge);
      assert run.requests == [RepoMetaUrl(r), BranchInfoUrl(r, branch), TreeUrl(r, info.treeSha.value)] + rest.requests;
      SelectedRecords(r, branch, tree, forge);
    }
  }

  /**
   * Every record of a successful selection step names a relevant path, was
   * fetched from that path's content URL, and holds the forge's answer.
   */
  lemma SelectedRecords(r: RepoRef, branch: string, tree: seq<TreeEntry>, forge: Forge)
    ensures var run := FetchSelected(r, branch, tree, forge);
      run.outcome.Success? ==>
        forall k :: 0 <= k < |run.outcome.value| ==>
          && IsRelevantFile(run.outcome.value[k].metadata.source)
          && run.requests[k] == ContentUrl(r, branch, run.outcome.value[k].metadata.source)
          && forge.rawContent(run.requests[k]) == Success(run.outcome.value[k].pageContent)
  {
  }

  /**
   * A failed lookup stops the run at that lookup: an HTTP error, a falsy
   * default branch, a falsy tree SHA or a missing tree is reported wrapped,
   * and nothing after it is requested.
   */
  lemma LookupFailuresStop(url: string, forge: Forge, r: RepoRef)
    requires ParseRepoUrl(url) == Some(r)
    ensures var run, metaUrl := GetRepoContent(url, forge), RepoMetaUrl(r);
      forge.repoMeta(metaUrl).Failure? ==>
        run == Run([metaUrl], Failure(FetchFailed(HttpFailed(forge.repoMeta(metaUrl).error))))
    ensures var run, metaUrl := GetRepoContent(url, forge), RepoMetaUrl(r);
      forge.repoMeta(metaUrl).Success? && !IsTruthy(forge.repoMeta(metaUrl).value.defaultBranch) ==>
        run == Run([metaUrl], Failure(FetchFailed(NoDefaultBranch)))
    ensures forall branch :: forge.repoMeta(RepoMetaUrl(r)) == Success(RepoMeta(Some(branch))) && branch != "" ==>
      var run, urls := GetRepoContent(url, forge), [RepoMetaUrl(r), BranchInfoUrl(r, branch)];
      && (forge.branchInfo(urls[1]).Failure? ==>
            run == Run(urls, Failure(FetchFailed(HttpFailed(forge.branchInfo(urls[1]).error)))))
      && (forge.branchInfo(urls[1]).Success? && !IsTruthy(forge.branchInfo(urls[1]).value.treeSha) ==>
            run == Run(urls, Failure(FetchFailed(NoTreeSha))))
    ensures forall branch, sha ::
      (&& forge.repoMeta(RepoMetaUrl(r)) == Success(RepoMeta(Some(branch))) && branch != ""
       && forge.branchInfo(BranchInfoUrl(r, branch)) == Success(BranchInfo(Some(sha))) && sha != "") ==>
      var run, urls := GetRepoContent(url, forge), [RepoMetaUrl(r), BranchInfoUrl(r, branch), TreeUrl(r, sha)];
      && (forge.treeListing(urls[2]).Failure? ==>
            run == Run(urls, Failure(FetchFailed(HttpFailed(forge.treeListing(urls[2]).error)))))
      && (forge.treeListing(urls[2]) == Success(TreeListing(None)) ==>
            run == Run(urls, Failure(FetchFailed(InvalidTreeResponse))))
  {
  }
}
