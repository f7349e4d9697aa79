/**
 * Which file paths count as relevant (`isRelevantFile`): a path is rejected
 * when it contains `node_modules`, `dist` or `build` anywhere as a substring;
 * otherwise its extension key, computed from the last `/`-segment, must be on
 * a fixed allow-list.
 */
module Relevance {
  import opened Text

  /** `RELEVANT_EXTENSIONS`: extension keys, plus the bare file name `Dockerfile`. */
  const RelevantExtensions: set<string> := {
    ".js", ".jsx", ".ts", ".tsx", ".py", ".md", ".json", ".html", ".css", ".scss",
    "Dockerfile", ".yml", ".yaml", ".sh", ".env.example", ".xml", ".java", ".go",
    ".php", ".dart", ".lua"
  }

  /** The substrings that exclude a path wherever they occur in it. */
  const ExcludedMarkers: seq<string> := ["node_modules", "dist", "build"]

  /** The path contains one of the excluded markers. */
  predicate IsExcluded(path: string)
  {
    Includes(path, "node_modules") || Includes(path, "dist") || Includes(path, "build")
  }

  /** `filePath.split("/")`'s last element: the file name, which holds no `/`. */
  function LastSegment(path: string): (segment: string)
    ensures '/' !in segment
  {
    Last(Split(path, '/'))
  }

  /**
   * The extension key: `"." + lastPart.split(".").pop()` when the last
   * segment contains a dot, else the segment itself. The key never holds a
   * dot after its first character.
   */
  function ExtensionKey(path: string): (key: string)
    ensures |key| == 0 || '.' !in key[1..]
  {
    var segment := LastSegment(path);
    if '.' in segment then "." + Last(Split(segment, '.')) else segment
  }

  /** `isRelevantFile(filePath)`. */
  predicate IsRelevantFile(path: string)
  {
    if IsExcluded(path) then false else ExtensionKey(path) in RelevantExtensions
  }

  /** The path has an occurrence of an excluded marker somewhere. */
  ghost predicate HasExcludedMarker(path: string)
  {
    exists m, i :: m in ExcludedMarkers && OccursAt(path, m, i)
  }

  /** Exclusion is exactly a substring occurrence of a marker, at any position. */
  lemma ExcludedIffMarkerOccurs(path: string)
    ensures IsExcluded(path) <==> HasExcludedMarker(path)
  {
    IncludesIffOccurs(path, "node_modules");
    IncludesIffOccurs(path, "dist");
    IncludesIffOccurs(path, "build");
    if HasExcludedMarker(path) {
      var m, i :| m in ExcludedMarkers && OccursAt(path, m, i);
      assert m == "node_modules" || m == "dist" || m == "build";
    }
  }

  /**
   * The relevance rule: a path is relevant exactly when no excluded marker
   * occurs in it and its extension key is on the allow-list.
   */
  lemma RelevantIff(path: string)
    ensures IsRelevantFile(path) <==> !HasExcludedMarker(path) && ExtensionKey(path) in RelevantExtensions
  {
    ExcludedIffMarkerOccurs(path);
  }

  /** A marker occurring anywhere, even inside a longer word, makes the path irrelevant. */
  lemma MarkerRejects(path: string, marker: string, i: int)
    requires marker in ExcludedMarkers && OccursAt(path, marker, i)
    ensures !IsRelevantFile(path)
  {
    ExcludedIffMarkerOccurs(path);
  }

  /**
   * The extension key, stated on the text after the last `/`: that segment
   * itself when it has no dot, else a dot followed by the segment's text
   * after its last dot.
   */
  lemma ExtensionKeyOfSegment(path: string, segment: string)
    requires IsTextAfterLast(path, '/', segment)
    ensures '.' !in segment ==> ExtensionKey(path) == segment
    ensures '.' in segment ==>
      var key := ExtensionKey(path);
      |key| >= 1 && key[0] == '.' && IsTextAfterLast(segment, '.', key[1..])
  {
    LastPieceIsTextAfterLast(path, '/');
    TextAfterLastUnique(path, '/', segment, LastSegment(path));
    if '.' in segment {
      LastPieceIsTextAfterLast(segment, '.');
      var key := ExtensionKey(path);
      assert key[1..] == Last(Split(segment, '.'));
    }
  }

  /** Directories in front of the last segment never change the key. */
  lemma ExtensionKeyIgnoresDirectories(directory: string, name: string)
    ensures ExtensionKey(directory + "/" + name) == ExtensionKey(name)
  {
    LastPieceAfterSeparator(directory, name, '/');
  }

  /** The `.env.example` allow-list entry can never be the key of any path. */
  lemma EnvExampleUnreachable(path: string)
    ensures ExtensionKey(path) != ".env.example"
  {
  }

  /** Hence no path at all is relevant because of the `.env.example` entry. */
  lemma RelevantWithoutEnvExample(path: string)
    ensures IsRelevantFile(path) <==>
      !IsExcluded(path) && ExtensionKey(path) in RelevantExtensions - {".env.example"}
  {
    EnvExampleUnreachable(path);
  }
}

/** Worked paths for the relevance rule. */
module RelevanceExamples {
  import opened Text
  import opened Relevance

  /** A marker that has a character the path lacks cannot occur in it. */
  lemma MissingCharacterExcludes(s: string, sub: string, c: char)
    requires c in sub && c !in s
    ensures !Includes(s, sub)
  {
    IncludesIffOccurs(s, sub);
  }

  /** The key of a file name with a dot is the text after its last dot, with the dot put back. */
  lemma DottedNameKey(stem: string, extension: string)
    requires '/' !in stem && '/' !in extension && '.' !in extension
    ensures ExtensionKey(stem + "." + extension) == "." + extension
  {
    var name := stem + "." + extension;
    SplitWithoutSeparator(name, '/');
    assert name[|stem|] == '.';
    LastPieceAfterSeparator(stem, extension, '.');
    SplitWithoutSeparator(extension, '.');
  }

  /** The key of a file name without a dot is the name itself. */
  lemma UndottedNameKey(name: string)
    requires '/' !in name && '.' !in name
    ensures ExtensionKey(name) == name
  {
    SplitWithoutSeparator(name, '/');
  }

  /** The same for a file inside a directory. */
  lemma DottedKey(directory: string, stem: string, extension: string)
    requires '/' !in stem && '/' !in extension && '.' !in extension
    ensures ExtensionKey(directory + "/" + stem + "." + extension) == "." + extension
  {
    assert directory + "/" + stem + "." + extension == directory + "/" + (stem + "." + extension);
    ExtensionKeyIgnoresDirectories(directory, stem + "." + extension);
    DottedNameKey(stem, extension);
  }

  /** The same for a file inside a directory. */
  lemma UndottedKey(directory: string, name: string)
    requires '/' !in name && '.' !in name
    ensures ExtensionKey(directory + "/" + name) == name
  {
    ExtensionKeyIgnoresDirectories(directory, name);
    UndottedNameKey(name);
  }

  /** `a/b/Dockerfile` has key `Dockerfile`. */
  lemma DockerfileKey(path: string)
    requires path == "a/b/Dockerfile"
    ensures ExtensionKey(path) == "Dockerfile"
  {
    assert path == "a/b" + "/" + "Dockerfile";
    UndottedKey("a/b", "Dockerfile");
  }

  /** `a/b.c.tar` has key `.tar`: only the text after the last dot counts. */
  lemma LastDotKey(path: string)
    requires path == "a/b.c.tar"
    ensures ExtensionKey(path) == ".tar"
  {
    LastDotLayout(path);
    DottedKey("a", "b.c", "tar");
  }

  /** The path above, cut at its last `/` and its last dot. */
  lemma LastDotLayout(path: string)
    requires path == "a/b.c.tar"
    ensures path == "a" + "/" + "b.c" + "." + "tar"
  {
  }

  /** `x.` has key `.`. */
  lemma TrailingDotKey(path: string)
    requires path == "x."
    ensures ExtensionKey(path) == "."
  {
    SplitWithoutSeparator(path, '/');
    assert path == "x" + "." + "";
    LastPieceAfterSeparator("x", "", '.');
  }

  /** `a/.env.example` has key `.example`, so the listed `.env.example` does not admit it. */
  lemma EnvExampleFileRejected(path: string)
    requires path == "a/.env.example"
    ensures ExtensionKey(path) == ".example"
    ensures !IsRelevantFile(path)
  {
    EnvExampleLayout(path);
    DottedKey("a", ".env", "example");
    ExampleUnlisted();
    RejectedByKey(path);
  }

  /** The path above, cut at its last `/` and its last dot. */
  lemma EnvExampleLayout(path: string)
    requires path == "a/.env.example"
    ensures path == "a" + "/" + ".env" + "." + "example"
  {
  }

  /** `.example` alone is not on the allow-list. */
  lemma ExampleUnlisted()
    ensures ".example" !in RelevantExtensions
  {
  }

  /** A key off the allow-list rejects the path whatever else it contains. */
  lemma RejectedByKey(path: string)
    requires ExtensionKey(path) !in RelevantExtensions
    ensures !IsRelevantFile(path)
  {
  }

  /** Markers inside longer words still exclude: `distance` holds `dist`, `rebuild` holds `build`. */
  lemma SubstringMarkersExclude(p1: string, p2: string)
    requires p1 == "src/distance/util.py" && p2 == "rebuild.js"
    ensures !IsRelevantFile(p1) && !IsRelevantFile(p2)
  {
    assert p1[4..8] == "dist";
    MarkerRejects(p1, "dist", 4);
    assert p2[2..7] == "build";
    MarkerRejects(p2, "build", 2);
  }

  /** A bare name that is not on the allow-list is rejected. */
  lemma LicenseRejected(path: string)
    requires path == "LICENSE"
    ensures !IsRelevantFile(path)
  {
    UndottedNameKey(path);
    RejectedByKey(path);
  }

  /** A path lacking one character of each marker contains no marker. */
  lemma MarkerFree(path: string, n: char, d: char, b: char)
    requires n in "node_modules" && n !in path
    requires d in "dist" && d !in path
    requires b in "build" && b !in path
    ensures !IsExcluded(path)
  {
    MissingCharacterExcludes(path, "node_modules", n);
    MissingCharacterExcludes(path, "dist", d);
    MissingCharacterExcludes(path, "build", b);
  }

  /**
   * A path lacking one character of each marker, whose key is listed, is
   * accepted.
   */
  lemma AcceptedByKey(path: string, key: string, n: char, d: char, b: char)
    requires n in "node_modules" && n !in path
    requires d in "dist" && d !in path
    requires b in "build" && b !in path
    requires ExtensionKey(path) == key && key in RelevantExtensions
    ensures IsRelevantFile(path)
  {
    MarkerFree(path, n, d, b);
  }

  /** The keys the accepted examples rely on are on the allow-list. */
  lemma ListedKeys()
    ensures ".py" in RelevantExtensions && ".md" in RelevantExtensions && "Dockerfile" in RelevantExtensions
  {
  }

  /** `src/a.py` has key `.py`. */
  lemma SourceFileKey(path: string)
    requires path == "src/a.py"
    ensures ExtensionKey(path) == ".py"
  {
    assert path == "src" + "/" + "a" + "." + "py";
    DottedKey("src", "a", "py");
  }

  /** A Python source file is accepted. */
  lemma SourceFileAccepted(path: string)
    requires path == "src/a.py"
    ensures IsRelevantFile(path)
  {
    SourceFileKey(path);
    ListedKeys();
    AcceptedByKey(path, ".py", 'n', 'd', 'b');
  }

  /** `README.md` has key `.md`. */
  lemma ReadmeKey(path: string)
    requires path == "README.md"
    ensures ExtensionKey(path) == ".md"
  {
    assert path == "README" + "." + "md";
    DottedNameKey("README", "md");
  }

  /** A Markdown file is accepted. */
  lemma ReadmeAccepted(path: string)
    requires path == "README.md"
    ensures IsRelevantFile(path)
  {
    ReadmeKey(path);
    ListedKeys();
    AcceptedByKey(path, ".md", 'n', 's', 'b');
  }

  /** `Dockerfile` lacks the `n` of `node_modules`, the `d` of `dist` and the `b` of `build`. */
  lemma DockerfileLetters(path: string)
    requires path == "Dockerfile"
    ensures 'n' !in path && 'd' !in path && 'b' !in path
  {
  }

  /** `Dockerfile` is accepted by its exact name. */
  lemma DockerfileAccepted(path: string)
    requires path == "Dockerfile"
    ensures IsRelevantFile(path)
  {
    UndottedNameKey(path);
    DockerfileLetters(path);
    ListedKeys();
    AcceptedByKey(path, "Dockerfile", 'n', 'd', 'b');
  }
}
