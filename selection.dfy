/**
 * Choosing the files to fetch from the recursive tree listing:
 * `tree.filter(file => file.type === "blob" && isRelevantFile(file.path)).slice(0, 100)`.
 * `filter` and `slice` are stated generically, as JavaScript's array methods
 * are, and then applied to the tree.
 */
module Selection {
  import opened Relevance

  /** One entry of the tree listing; `kind` is the listing's `type` field ("blob", "tree", "commit"). */
  datatype TreeEntry = TreeEntry(path: string, kind: string)

  /** At most this many files are fetched. */
  const MaxFiles: nat := 100

  /** `Array.prototype.filter`: the elements `keep` accepts, in order. */
  function Filter<T>(s: seq<T>, keep: T -> bool): (r: seq<T>)
    ensures |r| <= |s|
    ensures forall k :: 0 <= k < |r| ==> keep(r[k])
  {
    if s == [] then []
    else (if keep(s[0]) then [s[0]] else []) + Filter(s[1..], keep)
  }

  /** `Array.prototype.slice(0, n)`. */
  function Take<T>(s: seq<T>, n: nat): (r: seq<T>)
    ensures |r| == if |s| < n then |s| else n
    ensures forall k :: 0 <= k < |r| ==> r[k] == s[k]
  {
    if |s| <= n then s else s[..n]
  }

  /**
   * `r` lists exactly the elements of `s` that `keep` accepts, in order:
   * `idx` gives, strictly increasing, the position in `s` of each element of
   * `r`, and a position is listed exactly when `keep` accepts its element.
   */
  ghost predicate ListsKept<T>(r: seq<T>, s: seq<T>, keep: T -> bool, idx: seq<int>)
  {
    && |idx| == |r|
    && (forall j :: 0 <= j < |idx| ==> 0 <= idx[j] < |s| && r[j] == s[idx[j]])
    && (forall j, j' :: 0 <= j < j' < |idx| ==> idx[j] < idx[j'])
    && (forall i :: 0 <= i < |s| ==> (keep(s[i]) <==> i in idx))
  }

  /**
   * Every position moved up by one. The `ensures` is this definition stated
   * element-wise, the form the proofs about `ListsKept` use.
   */
  function Shift(idx: seq<int>): (r: seq<int>)
    ensures |r| == |idx| && forall j :: 0 <= j < |idx| ==> r[j] == idx[j] + 1
  {
    seq(|idx|, j requires 0 <= j < |idx| => idx[j] + 1)
  }

  /** The positions for one more element `x` in front. */
  function ConsPositions<T>(x: T, keep: T -> bool, idx: seq<int>): seq<int>
  {
    (if keep(x) then [0] else []) + Shift(idx)
  }

  /** One more element in front: the positions move up by one, and 0 is listed when that element is kept. */
  lemma ListsKeptCons<T>(x: T, s: seq<T>, keep: T -> bool, r: seq<T>, idx: seq<int>)
    requires ListsKept(r, s, keep, idx)
    ensures ListsKept((if keep(x) then [x] else []) + r, [x] + s, keep, ConsPositions(x, keep, idx))
  {
    ConsPositionsInRange(x, s, keep, r, idx);
    ConsPositionsIncreasing(x, keep, idx);
    ConsPositionsExact(x, s, keep, idx);
  }

  /** Each listed position of the longer sequence holds the listed element. */
  lemma ConsPositionsInRange<T>(x: T, s: seq<T>, keep: T -> bool, r: seq<T>, idx: seq<int>)
    requires |idx| == |r|
    requires forall j :: 0 <= j < |idx| ==> 0 <= idx[j] < |s| && r[j] == s[idx[j]]
    ensures var r', s', idx' := (if keep(x) then [x] else []) + r, [x] + s, ConsPositions(x, keep, idx);
      |idx'| == |r'| && forall j :: 0 <= j < |idx'| ==> 0 <= idx'[j] < |s'| && r'[j] == s'[idx'[j]]
  {
    var r', s', idx' := (if keep(x) then [x] else []) + r, [x] + s, ConsPositions(x, keep, idx);
    var h := if keep(x) then 1 else 0;
    forall j | 0 <= j < |idx'| ensures 0 <= idx'[j] < |s'| && r'[j] == s'[idx'[j]] {
      if j >= h {
        assert idx'[j] == idx[j - h] + 1 && r'[j] == r[j - h];
      }
    }
  }

  /** The positions of the longer listing still increase strictly. */
  lemma ConsPositionsIncreasing<T>(x: T, keep: T -> bool, idx: seq<int>)
    requires forall j :: 0 <= j < |idx| ==> 0 <= idx[j]
    requires forall j, j' :: 0 <= j < j' < |idx| ==> idx[j] < idx[j']
    ensures var idx' := ConsPositions(x, keep, idx);
      forall j, j' :: 0 <= j < j' < |idx'| ==> idx'[j] < idx'[j']
  {
    var idx' := ConsPositions(x, keep, idx);
    var h := if keep(x) then 1 else 0;
    forall j, j' | 0 <= j < j' < |idx'| ensures idx'[j] < idx'[j'] {
      assert idx'[j'] == idx[j' - h] + 1;
      if j >= h {
        assert idx'[j] == idx[j - h] + 1;
      }
    }
  }

  /** A position of the longer sequence is listed exactly when its element is kept. */
  lemma ConsPositionsExact<T>(x: T, s: seq<T>, keep: T -> bool, idx: seq<int>)
    requires forall j :: 0 <= j < |idx| ==> 0 <= idx[j]
    requires forall i :: 0 <= i < |s| ==> (keep(s[i]) <==> i in idx)
    ensures var s', idx' := [x] + s, ConsPositions(x, keep, idx);
      forall i :: 0 <= i < |s'| ==> (keep(s'[i]) <==> i in idx')
  {
    var s', shifted := [x] + s, Shift(idx);
    var idx' := ConsPositions(x, keep, idx);
    forall i | 0 <= i < |s'| ensures keep(s'[i]) <==> i in idx' {
      if i == 0 {
        assert 0 !in shifted;
      } else {
        assert s'[i] == s[i - 1];
        if i - 1 in idx {
          var j :| 0 <= j < |idx| && idx[j] == i - 1;
          assert shifted[j] == i;
        }
        assert i in idx' <==> i in shifted;
      }
    }
  }

  /** The filter keeps every accepted element and only those, in their original order. */
  lemma {:induction false} FilterListsKept<T>(s: seq<T>, keep: T -> bool)
    ensures exists idx :: ListsKept(Filter(s, keep), s, keep, idx)
  {
    if s == [] {
      assert Filter(s, keep) == [];
      assert ListsKept([], s, keep, []);
    } else {
      var rest := s[1..];
      FilterListsKept(rest, keep);
      var idx :| ListsKept(Filter(rest, keep), rest, keep, idx);
      ListsKeptCons(s[0], rest, keep, Filter(rest, keep), idx);
      assert [s[0]] + rest == s;
      assert ListsKept(Filter(s, keep), s, keep, ConsPositions(s[0], keep, idx));
    }
  }

  /** A prefix of `a + b` that covers all of `a`. */
  lemma {:induction false} PrefixOfAppend<T>(a: seq<T>, b: seq<T>, m: nat)
    requires |a| <= m <= |a| + |b|
    ensures (a + b)[..m] == a + b[..m - |a|]
  {
  }

  /** Filtering a sequence with one more element in front. */
  lemma {:induction false} FilterCons<T>(x: T, s: seq<T>, keep: T -> bool)
    ensures Filter([x] + s, keep) == (if keep(x) then [x] else []) + Filter(s, keep)
  {
    assert ([x] + s)[1..] == s;
  }

  /** The first `m` kept elements are the kept elements of some prefix of `s`. */
  lemma {:induction false} FilterPrefix<T>(s: seq<T>, keep: T -> bool, m: nat)
    requires m <= |Filter(s, keep)|
    ensures exists n :: 0 <= n <= |s| && Filter(s[..n], keep) == Filter(s, keep)[..m]
    decreases |s|
  {
    if m == 0 {
      assert Filter(s[..0], keep) == [];
    } else {
      var x, rest := s[0], s[1..];
      var head := if keep(x) then [x] else [];
      assert s == [x] + rest;
      FilterCons(x, rest, keep);
      FilterPrefix(rest, keep, m - |head|);
      var n' :| 0 <= n' <= |rest| && Filter(rest[..n'], keep) == Filter(rest, keep)[..m - |head|];
      assert s[..n' + 1] == [x] + rest[..n'];
      FilterCons(x, rest[..n'], keep);
      PrefixOfAppend(head, Filter(rest, keep), m);
      assert Filter(s[..n' + 1], keep) == Filter(s, keep)[..m];
    }
  }

  /** The condition of the source's filter: a file (not a directory or submodule) with a relevant path. */
  predicate IsWanted(entry: TreeEntry)
  {
    entry.kind == "blob" && IsRelevantFile(entry.path)
  }

  /** The `filter` step applied to the tree. */
  function WantedEntries(tree: seq<TreeEntry>): seq<TreeEntry>
  {
    Filter(tree, IsWanted)
  }

  /** The files to fetch: the first 100 wanted entries. */
  function SelectFiles(tree: seq<TreeEntry>): (r: seq<TreeEntry>)
    ensures |r| == if |WantedEntries(tree)| < MaxFiles then |WantedEntries(tree)| else MaxFiles
    ensures forall k :: 0 <= k < |r| ==> r[k].kind == "blob" && IsRelevantFile(r[k].path)
  {
    Take(WantedEntries(tree), MaxFiles)
  }

  /**
   * The selection is "the first 100 wanted entries in tree order": it lists
   * exactly the wanted entries of some prefix of the tree, and that prefix is
   * the whole tree whenever at most 100 entries are wanted.
   */
  lemma SelectionIsFirstWanted(tree: seq<TreeEntry>)
    ensures exists n, idx :: 0 <= n <= |tree| && ListsKept(SelectFiles(tree), tree[..n], IsWanted, idx)
    ensures |WantedEntries(tree)| <= MaxFiles ==>
      SelectFiles(tree) == WantedEntries(tree) && exists idx :: ListsKept(SelectFiles(tree), tree, IsWanted, idx)
  {
    var all := WantedEntries(tree);
    var m := if |all| < MaxFiles then |all| else MaxFiles;
    FilterPrefix(tree, IsWanted, m);
    var n :| 0 <= n <= |tree| && Filter(tree[..n], IsWanted) == all[..m];
    assert SelectFiles(tree) == all[..m];
    FilterListsKept(tree[..n], IsWanted);
    FilterListsKept(tree, IsWanted);
    assert |all| <= MaxFiles ==> all[..m] == all;
  }

  /** The selection is empty exactly when no entry of the tree is wanted. */
  lemma SelectionEmptyIff(tree: seq<TreeEntry>)
    ensures SelectFiles(tree) == [] <==> forall i :: 0 <= i < |tree| ==> !IsWanted(tree[i])
  {
    FilterListsKept(tree, IsWanted);
    var idx :| ListsKept(WantedEntries(tree), tree, IsWanted, idx);
    if SelectFiles(tree) == [] {
      assert idx == [];
    } else {
      assert IsWanted(tree[idx[0]]);
    }
  }
}

/**
 * The worked tree listing `src` (a directory), `src/a.py`, `node_modules/x.js`,
 * `dist/y.js`, `README.md`, `LICENSE`, `Dockerfile`: each entry is shown
 * wanted or not on its own, and then what the selection keeps.
 */
module SelectionExamples {
  import opened Text
  import opened Relevance
  import opened RelevanceExamples
  import opened Selection

  /**
   * Filtering a seven-entry listing in which only the second, fifth and
   * seventh entries are wanted (in the worked listing: `src/a.py`,
   * `README.md` and `Dockerfile`) keeps exactly those, in listing order.
   */
  lemma FilterSeven(tree: seq<TreeEntry>)
    requires |tree| == 7
    requires IsWanted(tree[1]) && IsWanted(tree[4]) && IsWanted(tree[6])
    requires !IsWanted(tree[0]) && !IsWanted(tree[2]) && !IsWanted(tree[3]) && !IsWanted(tree[5])
    ensures Filter(tree, IsWanted) == [tree[1], tree[4], tree[6]]
  {
    assert Filter(tree[7..], IsWanted) == [];
    assert Filter(tree[6..], IsWanted) == [tree[6]];
    assert Filter(tree[5..], IsWanted) == [tree[6]];
    assert Filter(tree[4..], IsWanted) == [tree[4], tree[6]];
    assert Filter(tree[3..], IsWanted) == [tree[4], tree[6]];
    assert Filter(tree[2..], IsWanted) == [tree[4], tree[6]];
    assert Filter(tree[1..], IsWanted) == [tree[1], tree[4], tree[6]];
  }

  /** The worked listing itself. */
  ghost predicate IsWorkedListing(tree: seq<TreeEntry>)
  {
    tree == [TreeEntry("src", "tree"), TreeEntry("src/a.py", "blob"),
             TreeEntry("node_modules/x.js", "blob"), TreeEntry("dist/y.js", "blob"),
             TreeEntry("README.md", "blob"), TreeEntry("LICENSE", "blob"),
             TreeEntry("Dockerfile", "blob")]
  }

  /** The directory entry `src` is not fetched: it is not a blob. */
  lemma DirectoryUnwanted(tree: seq<TreeEntry>)
    requires IsWorkedListing(tree)
    ensures !IsWanted(tree[0])
  {
  }

  /** `src/a.py` is wanted. */
  lemma SourceFileWanted(tree: seq<TreeEntry>)
    requires IsWorkedListing(tree)
    ensures IsWanted(tree[1])
  {
    SourceFileAccepted(tree[1].path);
  }

  /** `node_modules/x.js` is not: it starts with `node_modules`. */
  lemma NodeModulesUnwanted(tree: seq<TreeEntry>)
    requires IsWorkedListing(tree)
    ensures !IsWanted(tree[2])
  {
    assert OccursAt(tree[2].path, "node_modules", 0);
    MarkerRejects(tree[2].path, "node_modules", 0);
  }

  /** `dist/y.js` is not: it starts with `dist`. */
  lemma DistUnwanted(tree: seq<TreeEntry>)
    requires IsWorkedListing(tree)
    ensures !IsWanted(tree[3])
  {
    assert OccursAt(tree[3].path, "dist", 0);
    MarkerRejects(tree[3].path, "dist", 0);
  }

  /** `README.md` is wanted. */
  lemma ReadmeWanted(tree: seq<TreeEntry>)
    requires IsWorkedListing(tree)
    ensures IsWanted(tree[4])
  {
    ReadmeAccepted(tree[4].path);
  }

  /** `LICENSE` is not: its key is not listed. */
  lemma LicenseUnwanted(tree: seq<TreeEntry>)
    requires IsWorkedListing(tree)
    ensures !IsWanted(tree[5])
  {
    LicenseRejected(tree[5].path);
  }

  /** `Dockerfile` is wanted. */
  lemma DockerfileWanted(tree: seq<TreeEntry>)
    requires IsWorkedListing(tree)
    ensures IsWanted(tree[6])
  {
    DockerfileAccepted(tree[6].path);
  }

  /** The worked listing selects `src/a.py`, `README.md` and `Dockerfile`, in that order. */
  lemma WorkedListing(tree: seq<TreeEntry>)
    requires IsWorkedListing(tree)
    ensures SelectFiles(tree) == [TreeEntry("src/a.py", "blob"), TreeEntry("README.md", "blob"),
                                  TreeEntry("Dockerfile", "blob")]
  {
    DirectoryUnwanted(tree);
    SourceFileWanted(tree);
    NodeModulesUnwanted(tree);
    DistUnwanted(tree);
    ReadmeWanted(tree);
    LicenseUnwanted(tree);
    DockerfileWanted(tree);
    FilterSeven(tree);
  }
}
