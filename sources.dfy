/**
 Source resolution: `find_rss_files` for a local path or a URL, and the list of
 conventional feed addresses `main` probes under a base URL.

 The file system and the network are inputs here: whether a path is a file or
 a directory, the entries below a directory (what `glob` walks), and which
 URLs answer a fetch with status 200.
 */
module Sources {
  import opened Text
  import opened Rules
  import opened Sorting

  /** The basenames `find_rss_files` looks for, in the order of its glob patterns (line 131). */
  const FeedFileNames: seq<string> := ["index.xml", "rss.xml", "feed.xml", "atom.xml"]

  /** A URL ending in one of these is validated as given, not probed (line 148). */
  const FeedSuffixes: seq<string> := [".xml", ".rss", ".atom"]

  /** The paths tried under a base URL, in probe order (line 150). */
  const CommonPaths: seq<string> := ["/index.xml", "/feed.xml", "/rss.xml", "/atom.xml"]

  // ---------------------------------------------------------------- local paths

  /** The last path component, which the recursive glob patterns match against a file name. */
  function Basename(p: string): string {
    if p == [] || p[|p| - 1] == '/' then [] else Basename(p[..|p| - 1]) + [p[|p| - 1]]
  }

  /** A basename holds no '/', ends its path, and is preceded there by '/' unless it is the whole path. */
  lemma {:induction false} BasenameShape(p: string)
    ensures var r := Basename(p);
              (forall k :: 0 <= k < |r| ==> r[k] != '/') &&
              EndsWith(p, r) &&
              (|r| < |p| ==> p[|p| - |r| - 1] == '/')
  {
    if p != [] && p[|p| - 1] != '/' {
      var init := p[..|p| - 1];
      var r := Basename(init);
      BasenameShape(init);
      assert Basename(p) == r + [p[|p| - 1]];
      assert p[|p| - |r| - 1..] == init[|init| - |r|..] + [p[|p| - 1]];
      assert |r| < |init| ==> p[|p| - |r| - 2] == init[|init| - |r| - 1];
    }
  }

  /** `os.path.join(directory, relative)` for a relative path. */
  function JoinPath(directory: string, relative: string): string {
    if directory == [] || EndsWith(directory, "/") then directory + relative else directory + "/" + relative
  }

  /** What the recursive glob for `name` under `directory` (line 133) returns, given the
      entries below the directory as relative paths. */
  function GlobMatches(directory: string, tree: seq<string>, name: string): seq<string> {
    if tree == [] then []
    else
      var t := tree[|tree| - 1];
      GlobMatches(directory, tree[..|tree| - 1], name) + (if Basename(t) == name then [JoinPath(directory, t)] else [])
  }

  /** `rss_files` after extending it with the matches of each pattern in `names`. */
  function GlobAll(directory: string, tree: seq<string>, names: seq<string>): seq<string> {
    if names == [] then []
    else GlobAll(directory, tree, names[..|names| - 1]) + GlobMatches(directory, tree, names[|names| - 1])
  }

  /** The feeds found in a directory: every entry whose basename is a feed file name. */
  function DirectoryMatches(directory: string, tree: seq<string>): set<string> {
    set t | t in tree && Basename(t) in FeedFileNames :: JoinPath(directory, t)
  }

  lemma {:induction false} GlobMatchesExact(directory: string, tree: seq<string>, name: string)
    ensures forall f :: f in GlobMatches(directory, tree, name) <==>
              exists t :: t in tree && Basename(t) == name && f == JoinPath(directory, t)
  {
    if tree != [] {
      var init := tree[..|tree| - 1];
      GlobMatchesExact(directory, init, name);
      assert tree == init + [tree[|tree| - 1]];
    }
  }

  /** Extending over the patterns collects exactly the entries whose basename is one of the names. */
  lemma {:induction false} GlobAllExact(directory: string, tree: seq<string>, names: seq<string>)
    ensures forall f :: f in GlobAll(directory, tree, names) <==>
              exists t :: t in tree && Basename(t) in names && f == JoinPath(directory, t)
  {
    if names != [] {
      var init := names[..|names| - 1];
      var last := names[|names| - 1];
      GlobAllExact(directory, tree, init);
      GlobMatchesExact(directory, tree, last);
      assert names == init + [last];
    }
  }

  /** The matches of all four patterns, as a set, are the directory's feeds. */
  lemma GlobAllFeedNames(directory: string, tree: seq<string>)
    ensures (set f | f in GlobAll(directory, tree, FeedFileNames)) == DirectoryMatches(directory, tree)
  {
    GlobAllExact(directory, tree, FeedFileNames);
  }

  /** Lines 129-133: extend `rss_files` with the glob matches of each pattern in turn. */
  method GlobFeedFiles(path: string, tree: seq<string>) returns (found: seq<string>)
    ensures found == GlobAll(path, tree, FeedFileNames)
  {
    found := [];
    for p := 0 to |FeedFileNames|
      invariant found == GlobAll(path, tree, FeedFileNames[..p])
    {
      assert FeedFileNames[..p + 1][..p] == FeedFileNames[..p];
      found := found + GlobMatches(path, tree, FeedFileNames[p]);
    }
    assert FeedFileNames[..|FeedFileNames|] == FeedFileNames;
  }

  /** `list(set(found))` (line 135): each distinct path once, in an order Python leaves unspecified. */
  method Deduplicate(found: seq<string>) returns (files: seq<string>)
    ensures NoDuplicates(files)
    ensures (set f | f in files) == (set f | f in found)
    ensures |files| == |set f | f in found|
  {
    var pending := set f | f in found;
    files := [];
    while pending != {}
      invariant NoDuplicates(files)
      invariant forall f :: f in files ==> f !in pending
      invariant forall f :: f in found <==> f in files || f in pending
      invariant |files| + |pending| == |set f | f in found|
      decreases |pending|
    {
      var f :| f in pending;
      files := files + [f];
      pending := pending - {f};
    }
  }

  /** `find_rss_files` (lines 118-135). `isFile` and `isDir` are `os.path.isfile(path)` and
      `os.path.isdir(path)`; `tree` lists the entries below `path`. */
  method FindRssFiles(path: string, isFile: bool, isDir: bool, tree: seq<string>) returns (files: seq<string>)
    ensures IsUrl(path) ==> files == [path]
    ensures !IsUrl(path) && isFile ==> files == [path]
    ensures !IsUrl(path) && !isFile && !isDir ==> files == []
    ensures !IsUrl(path) && !isFile && isDir ==>
              NoDuplicates(files) && (set f | f in files) == DirectoryMatches(path, tree)
  {
    if StartsWith(path, "http://") || StartsWith(path, "https://") {
      return [path];
    }
    if isFile {
      return [path];
    }
    var found: seq<string> := [];
    if isDir {
      found := GlobFeedFiles(path, tree);
      GlobAllFeedNames(path, tree);
    }
    files := Deduplicate(found);
    if !isDir {
      assert (set f | f in found) == {};
    }
  }

  lemma {:induction false} BasenameOfName(name: string)
    requires forall k :: 0 <= k < |name| ==> name[k] != '/'
    ensures Basename(name) == name
  {
    if name != [] {
      BasenameOfName(name[..|name| - 1]);
    }
  }

  /** The basename of `directory/name` is `name`. */
  lemma {:induction false} BasenameAfterSlash(directory: string, name: string)
    requires forall k :: 0 <= k < |name| ==> name[k] != '/'
    ensures Basename(directory + "/" + name) == name
  {
    if name == [] {
      var p := directory + "/";
      assert p[|p| - 1] == '/';
    } else {
      var p := directory + "/" + name;
      var init := name[..|name| - 1];
      assert p[..|p| - 1] == directory + "/" + init;
      BasenameAfterSlash(directory, init);
    }
  }

  /** Joining onto the same directory keeps relative paths apart. */
  lemma JoinPathInjective(directory: string, t: string, u: string)
    requires JoinPath(directory, t) == JoinPath(directory, u)
    ensures t == u
  {
    var d := if directory == [] || EndsWith(directory, "/") then directory else directory + "/";
    assert JoinPath(directory, t) == d + t && JoinPath(directory, u) == d + u;
    assert t == (d + t)[|d|..] && u == (d + u)[|d|..];
  }

  /** An entry of the tree is reported exactly when its file name is a feed file name. */
  lemma DirectoryMatchesExact(path: string, tree: seq<string>, t: string)
    requires t in tree
    ensures JoinPath(path, t) in DirectoryMatches(path, tree) <==> Basename(t) in FeedFileNames
  {
    if JoinPath(path, t) in DirectoryMatches(path, tree) {
      var u :| u in tree && Basename(u) in FeedFileNames && JoinPath(path, u) == JoinPath(path, t);
      JoinPathInjective(path, t, u);
    }
  }

  /** The recursive patterns reach every depth: `name` directly in the directory, or below
      any sub-directory `sub`, is reported exactly when it is a feed file name. */
  lemma FeedFileFoundAtAnyDepth(path: string, tree: seq<string>, sub: string, name: string)
    requires forall k :: 0 <= k < |name| ==> name[k] != '/'
    ensures name in tree ==>
              (JoinPath(path, name) in DirectoryMatches(path, tree) <==> name in FeedFileNames)
    ensures sub + "/" + name in tree ==>
              (JoinPath(path, sub + "/" + name) in DirectoryMatches(path, tree) <==> name in FeedFileNames)
  {
    BasenameOfName(name);
    BasenameAfterSlash(sub, name);
    if name in tree {
      DirectoryMatchesExact(path, tree, name);
    }
    if sub + "/" + name in tree {
      DirectoryMatchesExact(path, tree, sub + "/" + name);
    }
  }

  // ---------------------------------------------------------------- base URLs

  /** A URL that names no feed file, so `main` probes the common paths under it. */
  predicate NeedsProbing(url: string) {
    IsUrl(url) && !EndsWithAny(url, FeedSuffixes)
  }

  /** `NeedsProbing` is the prefix and suffix test the program writes out. */
  lemma ProbeTest(url: string)
    ensures NeedsProbing(url) <==>
              (StartsWith(url, "http://") || StartsWith(url, "https://")) &&
              !(EndsWith(url, ".xml") || EndsWith(url, ".rss") || EndsWith(url, ".atom"))
  {
  }

  /** The URLs `main` tries under a base URL: `url.rstrip('/')` followed by each common path. */
  function ProbeCandidates(url: string): seq<string> {
    var base := RStripSlash(url);
    [base + CommonPaths[0], base + CommonPaths[1], base + CommonPaths[2], base + CommonPaths[3]]
  }

  lemma EndsWithAppended(a: string, p: string, suffix: string)
    requires EndsWith(p, suffix)
    ensures EndsWith(a + p, suffix)
  {
  }

  /** A candidate is the stripped base, a slash and a feed file name ending in `.xml`,
      so it is validated as given rather than probed again. */
  lemma CandidateShape(base: string, p: string)
    requires p in CommonPaths
    ensures StartsWith(base + p, base + "/")
    ensures EndsWith(base + p, ".xml") && !NeedsProbing(base + p)
  {
    assert p[..1] == "/" && EndsWith(p, ".xml");
    assert (base + p)[..|base| + 1] == base + "/";
    EndsWithAppended(base, p, ".xml");
    assert ".xml" in FeedSuffixes;
  }

  /** Trailing slashes on the base URL do not change the candidates. */
  lemma ProbeCandidatesIgnoreTrailingSlash(url: string)
    ensures ProbeCandidates(url + "/") == ProbeCandidates(url)
  {
  }

  /** The four candidates are distinct URLs under the stripped base, none of which is probed again. */
  lemma ProbeCandidatesProperties(url: string)
    ensures |ProbeCandidates(url)| == 4 && NoDuplicates(ProbeCandidates(url))
    ensures forall k :: 0 <= k < 4 ==>
              StartsWith(ProbeCandidates(url)[k], RStripSlash(url) + "/") &&
              EndsWith(ProbeCandidates(url)[k], ".xml") && !NeedsProbing(ProbeCandidates(url)[k])
  {
    var base := RStripSlash(url);
    var c := ProbeCandidates(url);
    forall k | 0 <= k < 4
      ensures StartsWith(c[k], base + "/") && EndsWith(c[k], ".xml") && !NeedsProbing(c[k])
    {
      CandidateShape(base, CommonPaths[k]);
    }
    forall i, j | 0 <= i < j < 4 ensures c[i] != c[j] {
      var pi, pj := CommonPaths[i], CommonPaths[j];
      assert c[i] == base + pi && c[j] == base + pj;
      assert c[i][|base| + 1] == pi[1] && c[j][|base| + 1] == pj[1];
    }
  }

  /** The candidates that answered with status 200, in probe order. */
  function Responding(candidates: seq<string>, responds: string -> bool): seq<string> {
    if candidates == [] then []
    else
      var c := candidates[|candidates| - 1];
      Responding(candidates[..|candidates| - 1], responds) + (if responds(c) then [c] else [])
  }

  /** Exactly the answering candidates are kept; an unanswered probe leaves no trace. */
  lemma {:induction false} RespondingExact(candidates: seq<string>, responds: string -> bool)
    ensures forall c :: c in Responding(candidates, responds) <==> c in candidates && responds(c)
    ensures |Responding(candidates, responds)| <= |candidates|
    ensures NoDuplicates(candidates) ==> NoDuplicates(Responding(candidates, responds))
  {
    if candidates != [] {
      var init := candidates[..|candidates| - 1];
      var last := candidates[|candidates| - 1];
      RespondingExact(init, responds);
      assert candidates == init + [last];
      if NoDuplicates(candidates) {
        assert last !in init;
        assert forall i, j :: 0 <= i < j < |init| ==> init[i] == candidates[i] && init[j] == candidates[j];
      }
    }
  }

  /** Lines 149-160: probe each common path in turn, keeping those that answer with status 200. */
  method ProbeCommonPaths(url: string, responds: string -> bool) returns (found: seq<string>)
    ensures found == Responding(ProbeCandidates(url), responds)
  {
    var baseUrl := RStripSlash(url);
    found := [];
    ghost var candidates := ProbeCandidates(url);
    for k := 0 to |CommonPaths|
      invariant found == Responding(candidates[..k], responds)
    {
      var testUrl := baseUrl + CommonPaths[k];
      assert testUrl == candidates[k];
      assert candidates[..k + 1][..k] == candidates[..k];
      if responds(testUrl) {
        found := found + [testUrl];
      }
    }
    assert candidates[..|CommonPaths|] == candidates;
  }

  /** When only `<base>/feed.xml` answers, it alone is found. */
  lemma OnlyFeedXmlAnswers(url: string, responds: string -> bool)
    requires forall u :: responds(u) <==> u == RStripSlash(url) + "/feed.xml"
    ensures Responding(ProbeCandidates(url), responds) == [RStripSlash(url) + "/feed.xml"]
  {
    var c := ProbeCandidates(url);
    ProbeCandidatesProperties(url);
    assert responds(c[1]);
    assert !responds(c[0]) && !responds(c[2]) && !responds(c[3]);
    assert c[..1][..0] == [];
    assert Responding(c[..1], responds) == [];
    assert c[..2][..1] == c[..1];
    assert Responding(c[..2], responds) == [c[1]];
    assert c[..3][..2] == c[..2];
    assert Responding(c[..3], responds) == [c[1]];
    assert c[..4][..3] == c[..3] && c[..4] == c;
  }

  /** `https://example.com` names no feed file, so `main` probes under it unchanged. */
  lemma ExampleComIsProbed()
    ensures NeedsProbing("https://example.com")
    ensures RStripSlash("https://example.com") == "https://example.com"
  {
    var url := "https://example.com";
    assert StartsWith(url, "https://") && "https://" in ["http://", "https://"];
    assert url[|url| - 1] == 'm';
    assert !EndsWith(url, ".xml") && !EndsWith(url, ".rss") && !EndsWith(url, ".atom");
  }

  /** The probe of `https://example.com` when only its `/feed.xml` answers. */
  lemma ProbeScenario(responds: string -> bool)
    requires forall u :: responds(u) <==> u == "https://example.com/feed.xml"
    ensures Responding(ProbeCandidates("https://example.com"), responds) == ["https://example.com/feed.xml"]
  {
    ExampleComIsProbed();
    OnlyFeedXmlAnswers("https://example.com", responds);
  }
}
