# Repository content fetcher — a Dafny model

This project models the core of `backend/services/githubService.js`: the
function `getRepoContent(repoUrl)`, which turns a GitHub repository URL into
one `{ pageContent, metadata: { source } }` record per relevant source file.
It does this in five steps:

- it extracts `owner` and `repo` from the URL with an unanchored regular expression;
- it asks the GitHub API for the default branch, that branch's tree SHA and the recursive tree;
- it keeps the blobs whose path `isRelevantFile` accepts, in tree order, and at most 100 of them;
- it fetches each kept file's raw text;
- it returns the records, or rejects with an error.

The project is made of these modules:

- `Wrappers`: `Option` and `Result`.
- `Text`: the JavaScript string operations the relevance rule uses. These are `includes`, `split` on one character and the last element of an array.
  - Each comes with a declarative partner (an occurrence at an index, the text after the last separator) and the lemmas that connect the two.
  - `Join` is not used by the rule. It is the inverse against which `split` is proved.
- `RepoUrl`: the regular expression `github\.com\/([^/]+)\/([^/]+)`.
  - The pattern is tried at every start position from the left.
  - The result is proved to be the match at the leftmost position where the pattern matches at all.
  - `RepoUrlExamples` works through the URL forms the pattern accepts and rejects.
- `Relevance`: the extension allow-list and `isRelevantFile`.
  - `RelevanceExamples` works through individual paths.
- `Selection`: `filter(blob && isRelevantFile).slice(0, 100)`.
  - The selection is proved to be exactly the wanted entries of a prefix of the tree, in tree order.
- `GithubService`: the whole `getRepoContent` pipeline.
  - The four kinds of HTTP answers are inputs: a `Forge` value maps each exact URL the source builds to a response or an HTTP error.
  - A `Run` records the URLs requested, in order, together with the outcome.

Two behaviours of the code are easy to misread; the model reproduces both:

- A failed raw-content fetch is not re-wrapped. The source returns `Promise.all(...)` from inside the `try` without awaiting it, so the rejection bypasses the `catch`. `ContentFetchFailed` carries the HTTP error itself.
  - Only the URL error is also unwrapped (`InvalidUrlFormat`), because it is thrown before the `try`.
  - The three lookups and the empty selection are wrapped (`FetchFailed`).
- The `.env.example` entry of the allow-list can never match.
  - The key is built from the text after the last dot, so `.env.example` files get the key `.example` and are rejected.
  - The model keeps the entry and proves that no path has that key.

## Model

| member | source | states |
|---|---|---|
| Text.Last | backend/services/githubService.js:37-39 | see Text.LastPieceIsTextAfterLast: the last piece of `split` (`parts[parts.length - 1]`, `pop()`) is the text after the last separator |
| Text.Includes | backend/services/githubService.js:29-31 | see Text.IncludesIffOccurs |
| Text.IncludesIffOccurs | backend/services/githubService.js:28-32 | `includes` as used by the exclusion test holds exactly when the substring occurs at some index of the path |
| Text.Split | backend/services/githubService.js:36 | `split` on one character never returns an empty array, and no piece contains the separator |
| Text.JoinSplit | backend/services/githubService.js:36 | joining the pieces of `split` with the separator gives back the original string, so no character is lost |
| Text.SplitJoin | backend/services/githubService.js:36 | splitting a join of separator-free pieces gives back exactly those pieces |
| Text.SplitWithoutSeparator | backend/services/githubService.js:36-38 | a string without the separator splits into itself alone |
| Text.SplitAround | backend/services/githubService.js:36 | a separator splits the text before it and the text after it independently |
| Text.LastPieceIsTextAfterLast | backend/services/githubService.js:36-39 | the last piece of `split` (`parts[parts.length - 1]`, `pop()`) is the separator-free suffix after the last separator |
| Text.TextAfterLastUnique | backend/services/githubService.js:36-39 | there is only one such suffix |
| Text.LastPieceAfterSeparator | backend/services/githubService.js:36-37 | what precedes the last separator never changes the last piece |
| RepoUrl.RunEnd | backend/services/githubService.js:48 | greedy `[^/]+` stops at the first `/` or at the end of the string, and consumes no `/` |
| RepoUrl.ParseRepoUrl | backend/services/githubService.js:48-54 | no result exactly when the pattern matches at no position; otherwise the groups come from the leftmost matching position, and owner and repo are non-empty and contain no `/` |
| RepoUrl.MatchAt | backend/services/githubService.js:48 | see RepoUrl.MatchAtSound and RepoUrl.MatchAtComplete |
| RepoUrl.FirstMatchFrom | backend/services/githubService.js:48 | see RepoUrl.FirstMatchFromIsLeftmost |
| RepoUrl.MatchAtSound | backend/services/githubService.js:48 | a match found at a position satisfies the pattern there: `github.com/`, a non-empty segment, `/`, and a non-empty segment that ends at `/` or at the end of the URL |
| RepoUrl.MatchAtComplete | backend/services/githubService.js:48 | any way the pattern fits at a position is the match found there, so the groups are unique |
| RepoUrl.FirstMatchFromIsLeftmost | backend/services/githubService.js:48 | the search from a position returns the match at the first matching position at or after it, and nothing if there is none |
| RepoUrlExamples.CanonicalUrl | backend/services/githubService.js:48-54 | `https://github.com/octocat/Hello-World` gives owner `octocat` and repo `Hello-World` |
| RepoUrlExamples.TrailingPathIgnored | backend/services/githubService.js:48-54 | a trailing `/tree/main` is ignored |
| RepoUrlExamples.QueryAndFragmentKept | backend/services/githubService.js:48-54 | `?tab=1#top` after the repository name stays part of `repo` |
| RepoUrlExamples.GitSuffixKept | backend/services/githubService.js:48-54 | a `.git` suffix stays part of `repo` |
| RepoUrlExamples.OtherHostAccepted | backend/services/githubService.js:48-54 | the unanchored pattern also matches inside `notgithub.com` |
| RepoUrlExamples.OwnerOnlyRejected | backend/services/githubService.js:48-52 | a URL with an owner but no repository is rejected |
| RepoUrlExamples.EmptyOwnerRejected | backend/services/githubService.js:48-52 | an empty owner segment (`github.com//r`) is rejected |
| RepoUrlExamples.EmptyRepoRejected | backend/services/githubService.js:48-52 | an empty repository segment (`github.com/o/`) is rejected |
| RepoUrlExamples.OtherForgeRejected | backend/services/githubService.js:48-52 | a URL on another forge is rejected |
| Relevance.RelevantExtensions | backend/services/githubService.js:3-25 | see Relevance.RelevantIff, Relevance.EnvExampleUnreachable and RelevanceExamples.LicenseRejected |
| Relevance.IsExcluded | backend/services/githubService.js:28-32 | see Relevance.ExcludedIffMarkerOccurs |
| Relevance.LastSegment | backend/services/githubService.js:36-37 | the last piece of the path holds no `/`; see Text.LastPieceIsTextAfterLast for which piece it is |
| Relevance.IsRelevantFile | backend/services/githubService.js:27-43 | see Relevance.RelevantIff |
| Relevance.ExtensionKey | backend/services/githubService.js:36-40 | the key never contains a dot after its first character |
| Relevance.ExcludedIffMarkerOccurs | backend/services/githubService.js:28-34 | a path is excluded exactly when `node_modules`, `dist` or `build` occurs in it at some index |
| Relevance.RelevantIff | backend/services/githubService.js:27-43 | a path is relevant exactly when no excluded marker occurs in it and its extension key is in `RELEVANT_EXTENSIONS` |
| Relevance.MarkerRejects | backend/services/githubService.js:28-34 | a marker occurring anywhere, even inside a longer word, rejects the path |
| Relevance.ExtensionKeyOfSegment | backend/services/githubService.js:36-40 | for the text after the last `/`: without a dot the key is that text; with a dot the key is `.` followed by its text after the last dot |
| Relevance.ExtensionKeyIgnoresDirectories | backend/services/githubService.js:36-37 | the directories in front of the file name never change the key |
| Relevance.EnvExampleUnreachable | backend/services/githubService.js:18 | no path has the key `.env.example` |
| Relevance.RelevantWithoutEnvExample | backend/services/githubService.js:3-25 | relevance is unchanged when the `.env.example` entry is removed from the allow-list |
| RelevanceExamples.DottedNameKey | backend/services/githubService.js:36-40 | a file name with a dot has as its key the text after its last dot, with the dot in front |
| RelevanceExamples.UndottedNameKey | backend/services/githubService.js:36-40 | a file name without a dot is its own key |
| RelevanceExamples.DockerfileKey | backend/services/githubService.js:36-40 | `a/b/Dockerfile` has the key `Dockerfile` |
| RelevanceExamples.LastDotKey | backend/services/githubService.js:38-39 | `a/b.c.tar` has the key `.tar` |
| RelevanceExamples.TrailingDotKey | backend/services/githubService.js:38-39 | `x.` has the key `.` |
| RelevanceExamples.EnvExampleFileRejected | backend/services/githubService.js:18 | `a/.env.example` has the key `.example` and is not relevant |
| RelevanceExamples.SubstringMarkersExclude | backend/services/githubService.js:28-34 | `src/distance/util.py` and `rebuild.js` are rejected because they hold `dist` and `build` |
| RelevanceExamples.LicenseRejected | backend/services/githubService.js:42 | `LICENSE` is not on the allow-list |
| RelevanceExamples.SourceFileAccepted | backend/services/githubService.js:27-43 | `src/a.py` is relevant |
| RelevanceExamples.ReadmeAccepted | backend/services/githubService.js:27-43 | `README.md` is relevant |
| RelevanceExamples.DockerfileAccepted | backend/services/githubService.js:14 | `Dockerfile` is relevant by its exact name |
| Selection.IsWanted | backend/services/githubService.js:84 | see Selection.SelectionEmptyIff and Selection.SelectFiles |
| Selection.WantedEntries | backend/services/githubService.js:83-84 | see Selection.FilterListsKept, applied to `IsWanted` |
| Selection.Filter | backend/services/githubService.js:83-84 | the filter's result is no longer than the tree and holds only accepted entries |
| Selection.Take | backend/services/githubService.js:85 | `slice(0, n)` has length min(length, n) and is a prefix |
| Selection.FilterListsKept | backend/services/githubService.js:83-84 | the filter lists every accepted entry and only those, in tree order |
| Selection.FilterPrefix | backend/services/githubService.js:83-85 | the first m kept entries are exactly the kept entries of some prefix of the tree |
| Selection.SelectFiles | backend/services/githubService.js:83-85 | at most 100 files are selected (fewer only when fewer are wanted), and each is a blob with a relevant path |
| Selection.SelectionIsFirstWanted | backend/services/githubService.js:83-85 | the selection is exactly the wanted entries of a prefix of the tree, in order; when at most 100 are wanted, it is all of them |
| Selection.SelectionEmptyIff | backend/services/githubService.js:83-90 | nothing is selected exactly when no entry of the tree is a relevant blob |
| SelectionExamples.FilterSeven | backend/services/githubService.js:83-84 | in a seven-entry listing with wanted entries 2, 5 and 7, the filter keeps exactly those, in order |
| SelectionExamples.SourceFileWanted | backend/services/githubService.js:84 | the blob `src/a.py` is selected |
| SelectionExamples.ReadmeWanted | backend/services/githubService.js:84 | the blob `README.md` is selected |
| SelectionExamples.DockerfileWanted | backend/services/githubService.js:84 | the blob `Dockerfile` is selected |
| SelectionExamples.DirectoryUnwanted | backend/services/githubService.js:84 | the directory entry `src` is not selected, because it is not a blob |
| SelectionExamples.NodeModulesUnwanted | backend/services/githubService.js:84 | the blob `node_modules/x.js` is not selected |
| SelectionExamples.DistUnwanted | backend/services/githubService.js:84 | the blob `dist/y.js` is not selected |
| SelectionExamples.LicenseUnwanted | backend/services/githubService.js:84 | the blob `LICENSE` is not selected |
| SelectionExamples.WorkedListing | backend/services/githubService.js:83-85 | the listing `src` (a directory), `src/a.py`, `node_modules/x.js`, `dist/y.js`, `README.md`, `LICENSE`, `Dockerfile` selects `src/a.py`, `README.md` and `Dockerfile`, in that order |
| GithubService.RepoMetaUrl | backend/services/githubService.js:58 | see GithubService.GetRepoContent and GithubService.LookupFailuresStop: it is the first request |
| GithubService.BranchInfoUrl | backend/services/githubService.js:68 | see GithubService.LookupFailuresStop: it is the second request, made only after a truthy default branch |
| GithubService.TreeUrl | backend/services/githubService.js:76 | see GithubService.LookupFailuresStop: it is the third request, made only after a truthy tree SHA |
| GithubService.IsTruthy | backend/services/githubService.js:62-73 | see GithubService.LookupFailuresStop: a missing or empty default branch (`!defaultBranch`, line 62) or tree SHA (`!treeSha`, line 72) stops the run |
| GithubService.ContentUrl | backend/services/githubService.js:94 | see GithubService.ContentUrlInjective |
| GithubService.ContentUrls | backend/services/githubService.js:93-94 | see GithubService.FetchSelected and GithubService.RunAfterTree: exactly these URLs are requested after the three lookups, one per selected file in order |
| GithubService.ContentUrlInjective | backend/services/githubService.js:94 | for one repository and branch, two files' content URLs are equal only when their paths are equal, so each URL names exactly one file |
| GithubService.FetchContents | backend/services/githubService.js:93-102 | success exactly when every file's fetch succeeds, giving one record per file in order with the fetched text and `source` set to the path; otherwise the error of a file whose fetch failed |
| GithubService.FetchSelected | backend/services/githubService.js:83-102 | after the tree lookup: the requests are the selected files' content URLs; nothing selected exactly when the outcome is the wrapped "no relevant files"; success exactly when files were selected and every fetch succeeds, with one record per file in order holding its text and path; any other failure is the unwrapped HTTP error of a selected file |
| GithubService.GetRepoContent | backend/services/githubService.js:45-111 | an unparsable URL fails with the unwrapped URL error and requests nothing; otherwise the first request is the repository lookup; success holds 1 to 100 records, after exactly one request per record beyond the three lookups |
| GithubService.RunAfterTree | backend/services/githubService.js:76-102 | once the three lookups have answered, the requests are the lookups followed by every selected file's URL; an empty selection fails with the wrapped "no relevant files"; a failed fetch fails with the unwrapped HTTP error of a selected file; otherwise there is one record per selected file, in order, with its content and path |
| GithubService.SelectedRecords | backend/services/githubService.js:83-102 | every record of a successful selection step names a relevant path, was fetched from that path's content URL, and holds the forge's answer |
| GithubService.SuccessfulRecords | backend/services/githubService.js:83-102 | every record of a successful run names a relevant path; the request after the three lookups at the record's position is the content URL of that record's own path on the default branch; and the record holds the forge's answer to that request |
| GithubService.LookupFailuresStop | backend/services/githubService.js:56-81 | an HTTP failure, a missing or empty default branch, a missing or empty tree SHA, or a missing tree stops the run at that lookup with the wrapped error, and nothing after it is requested |

## Left out

- Network I/O: axios GETs are not performed. Each lookup's answer is a function of the exact URL requested (the `Forge` value), so a run is deterministic in its inputs.
- Concurrency of the content fetches: every content URL is requested, and success needs every answer.
- FetchContents: when several content fetches fail, `Promise.all` rejects with whichever settles first. The model reports the first failing file in selection order, and its contract promises only "some selected file whose fetch failed".
- JSON shape: only the fields the source reads are modelled. These are `default_branch`, `commit.commit.tree.sha`, `tree`, and each entry's `path` and `type`.
  - `default_branch`, the tree SHA and `tree` may be missing. `RepoMeta`, `BranchInfo` and `TreeListing` use `Option` for them.
  - Each entry's `path` and `type` are plain strings in `TreeEntry`. A missing `type` behaves like any string other than `blob`.
  - Non-string values, a `tree` that is not an array, and JavaScript's truthiness of other types are not modelled.
- TreeEntry: a blob entry with no `path` cannot be written. In the source, `filePath.includes` then throws a `TypeError` (line 29). The `catch` wraps it as "Failed to fetch repository content" (lines 103-109).
- RepoMeta: a repository response with no `data` cannot be written. In the source, line 60 reads `data.default_branch` without `?.`, so it throws a `TypeError`. The `catch` wraps it. The model only has a present or missing `default_branch`.
- Response bodies: axios may parse a JSON file's raw text into an object. The model treats every raw answer as a string.
- Error text: the thrown messages, including `error.response?.status || ""`, are not modelled. The error value carries the HTTP error (its status when known, and its message) or names the failing stage.
- Logging: the `console.log` and `console.error` calls are not modelled.
