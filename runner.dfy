/**
 `main`: resolve the command-line target to a list of feed sources, validate
 each in sorted order, and fold the verdicts into `all_valid` and the exit
 status.

 What the environment answers is passed in: the command-line arguments,
 `os.path.isfile` / `os.path.isdir` of the target, the entries below it,
 which probed URLs answer with status 200, and how reading or fetching each
 source ends.
 */
module Runner {
  import opened Text
  import opened Feed
  import opened Rules
  import opened Validator
  import opened Sorting
  import opened Sources
  import opened Properties

  /** The report printed for one source. */
  datatype SourceResult = SourceResult(source: string, report: Report)

  /** How `main` ends. */
  datatype Outcome =
    | Usage                               // fewer than one argument: print the usage text
    | NoFeedsAtCommonPaths(target: string) // a base URL none of whose common paths answers
    | NoRssFilesFound(target: string)      // a local path holding no feed file
    | Validated(results: seq<SourceResult>, allValid: bool)

  /** `sys.exit` status: 0 only when validation ran and every source's report passed. */
  function ExitStatus(o: Outcome): (code: int)
    requires o.Validated? ==> (o.allValid <==> forall r :: r in o.results ==> r.report.passed)
    ensures code == 0 || code == 1
    ensures code == 0 <==> o.Validated? && forall r :: r in o.results ==> r.report.passed
  {
    if o.Validated? && o.allValid then 0 else 1
  }

  function SourcesOf(results: seq<SourceResult>): (r: seq<string>)
    ensures |r| == |results|
    ensures forall k :: 0 <= k < |r| ==> r[k] == results[k].source
  {
    if results == [] then [] else SourcesOf(results[..|results| - 1]) + [results[|results| - 1].source]
  }

  /** The sources `main` validates for the target `path`. */
  function Targets(path: string, isFile: bool, isDir: bool, tree: seq<string>, responds: string -> bool): set<string> {
    if IsUrl(path) then
      if NeedsProbing(path) then set c | c in ProbeCandidates(path) && responds(c) else {path}
    else if isFile then {path}
    else if isDir then DirectoryMatches(path, tree)
    else {}
  }

  /** Lines 146-173: the sources to validate, before sorting. */
  method Resolve(path: string, isFile: bool, isDir: bool, tree: seq<string>, responds: string -> bool)
    returns (files: seq<string>)
    ensures NoDuplicates(files)
    ensures forall f :: f in files <==> f in Targets(path, isFile, isDir, tree, responds)
  {
    UrlTest(path);
    ProbeTest(path);
    if StartsWith(path, "http://") || StartsWith(path, "https://") {
      if !(EndsWith(path, ".xml") || EndsWith(path, ".rss") || EndsWith(path, ".atom")) {
        files := ProbeCommonPaths(path, responds);
        ProbedTargets(path, isFile, isDir, tree, responds);
      } else {
        files := [path];
      }
    } else {
      files := FindRssFiles(path, isFile, isDir, tree);
    }
  }

  /** The probe results are duplicate-free and are the targets of a base URL. */
  lemma ProbedTargets(path: string, isFile: bool, isDir: bool, tree: seq<string>, responds: string -> bool)
    requires NeedsProbing(path)
    ensures NoDuplicates(Responding(ProbeCandidates(path), responds))
    ensures forall f :: f in Responding(ProbeCandidates(path), responds) <==> f in Targets(path, isFile, isDir, tree, responds)
  {
    ProbeCandidatesProperties(path);
    RespondingExact(ProbeCandidates(path), responds);
  }

  /** Lines 178-181: validate each source in the given order; `all_valid` is false after any failure. */
  method ValidateAll(ordered: seq<string>, acquire: string -> Acquisition)
    returns (results: seq<SourceResult>, allValid: bool)
    ensures SourcesOf(results) == ordered
    ensures forall r :: r in results ==> r.report == ValidateSource(r.source, acquire(r.source))
    ensures allValid <==> forall r :: r in results ==> r.report.passed
  {
    results, allValid := [], true;
    for i := 0 to |ordered|
      invariant |results| == i
      invariant forall k :: 0 <= k < i ==> results[k].source == ordered[k]
      invariant forall k :: 0 <= k < i ==> results[k].report == ValidateSource(ordered[k], acquire(ordered[k]))
      invariant allValid <==> forall k :: 0 <= k < i ==> results[k].report.passed
    {
      var source := ordered[i];
      var diags, passed := ValidateRss(source, acquire(source));
      results := results + [SourceResult(source, Report(diags, passed))];
      if !passed {
        allValid := false;
      }
    }
    assert SourcesOf(results) == ordered;
  }

  /** `main` (lines 138-190). `argv` includes the script name, as `sys.argv` does. */
  method Run(argv: seq<string>, isFile: bool, isDir: bool, tree: seq<string>,
             responds: string -> bool, acquire: string -> Acquisition)
    returns (outcome: Outcome)
    ensures outcome.Usage? <==> |argv| < 2
    ensures |argv| >= 2 ==>
              var path := argv[1];
              var targets := Targets(path, isFile, isDir, tree, responds);
              (outcome.NoFeedsAtCommonPaths? <==> NeedsProbing(path) && targets == {}) &&
              (outcome.NoRssFilesFound? <==> !IsUrl(path) && targets == {}) &&
              (outcome.Validated? <==> targets != {}) &&
              (!outcome.Validated? ==> outcome.target == path)
    ensures outcome.Validated? ==>
              var sources := SourcesOf(outcome.results);
              Sorted(sources) && NoDuplicates(sources) &&
              (forall f :: f in sources <==> f in Targets(argv[1], isFile, isDir, tree, responds)) &&
              (forall r :: r in outcome.results ==> r.report == ValidateSource(r.source, acquire(r.source))) &&
              (outcome.allValid <==> forall r :: r in outcome.results ==> r.report.passed)
    ensures ExitStatus(outcome) == 0 <==>
              outcome.Validated? && forall r :: r in outcome.results ==> !HasSeverity(r.report.diagnostics, Error)
  {
    if |argv| < 2 {
      return Usage;
    }
    var path := argv[1];
    var files := Resolve(path, isFile, isDir, tree, responds);
    ghost var targets := Targets(path, isFile, isDir, tree, responds);
    if files == [] {
      assert targets == {};
      if IsUrl(path) {
        return NoFeedsAtCommonPaths(path);
      }
      return NoRssFilesFound(path);
    }
    assert files[0] in targets;
    var ordered := Sort(files);
    NoDuplicatesPermutation(files, ordered);
    assert forall f :: f in ordered <==> f in files by {
      forall f ensures f in ordered <==> f in files {
        assert f in multiset(ordered) <==> f in multiset(files);
      }
    }
    var results, allValid := ValidateAll(ordered, acquire);
    outcome := Validated(results, allValid);
    ExitZeroIffNoErrors(outcome, acquire);
  }

  /** A validated source passed exactly when its report holds no ERROR line. */
  lemma SourcePassedIffNoError(source: string, acq: Acquisition)
    ensures ValidateSource(source, acq).passed <==> !HasSeverity(ValidateSource(source, acq).diagnostics, Error)
  {
    match acq
    case Failed(e) =>
      assert ValidateSource(source, acq).diagnostics[0].severity == Error;
    case Parsed(feed) =>
      VerdictIsAbsenceOfErrors(feed);
  }

  /** The exit status is 0 exactly when sources were found and none of their reports holds an ERROR. */
  lemma ExitZeroIffNoErrors(o: Outcome, acquire: string -> Acquisition)
    requires o.Validated?
    requires forall r :: r in o.results ==> r.report == ValidateSource(r.source, acquire(r.source))
    requires o.allValid <==> forall r :: r in o.results ==> r.report.passed
    ensures ExitStatus(o) == 0 <==> forall r :: r in o.results ==> !HasSeverity(r.report.diagnostics, Error)
  {
    forall r | r in o.results
      ensures r.report.passed <==> !HasSeverity(r.report.diagnostics, Error)
    {
      SourcePassedIffNoError(r.source, acquire(r.source));
    }
  }
}
