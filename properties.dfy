/**
 What the compliance rules promise about a whole feed: the verdict is the
 absence of ERRORs, the first three stages stop at the first failure, the item
 scan reports everything (errors before warnings), and a passing run ends with
 its INFO lines and a single PASS line.
 */
module Properties {
  import opened Text
  import opened Feed
  import opened Rules

  predicate HasSeverity(ds: seq<Diagnostic>, s: Severity) {
    exists d :: d in ds && d.severity == s
  }

  /** The feed gets past the bozo, version and channel stages. */
  predicate ReachesItems(feed: ParsedFeed) {
    !feed.bozo && feed.version.Some? && MissingChannel(feed.channel) == []
  }

  /** An ERROR (or any severity) occurs in a concatenation iff it occurs in one of the parts. */
  lemma HasSeverityConcat(a: seq<Diagnostic>, b: seq<Diagnostic>, s: Severity)
    ensures HasSeverity(a + b, s) <==> HasSeverity(a, s) || HasSeverity(b, s)
  {
  }

  /** The item section is the item ERRORs followed by WARNINGs only, and holds an ERROR
      only when the error scan found one. */
  lemma ItemSectionShape(es: seq<Entry>)
    ensures ItemSection(es)[..|ItemErrors(es)|] == ItemErrors(es)
    ensures forall d :: d in ItemSection(es)[|ItemErrors(es)|..] ==> d.severity == Warning
    ensures forall d :: d in ItemSection(es) ==>
              (d.severity == Error || d.severity == Warning) && !d.message.MissingChannelElements?
  {
    var e, w := ItemErrors(es), ItemWarnings(es);
    ItemErrorsKinds(es);
    ItemWarningsKinds(es);
    if es == [] {
      assert e == [];
      assert ItemSection(es) == [Diagnostic(Warning, NoItems)];
    } else {
      assert ItemSection(es) == e + w;
      assert (e + w)[..|e|] == e && (e + w)[|e|..] == w;
    }
  }

  /** The item section holds an ERROR exactly when the error scan found one, and never a PASS line. */
  lemma ItemSectionSeverities(es: seq<Entry>)
    ensures HasSeverity(ItemSection(es), Error) <==> ItemErrors(es) != []
    ensures !HasSeverity(ItemSection(es), Pass)
  {
  }

  /** Past the channel stage the report is the version notice, the item section and,
      when the error scan found nothing, the INFO lines and the PASS line. */
  lemma ReachesItemsShape(feed: ParsedFeed)
    requires ReachesItems(feed)
    ensures Validate(feed).passed == (ItemErrors(feed.entries) == [])
    ensures Validate(feed).diagnostics == VersionNotice(feed.version.value) + ItemSection(feed.entries) +
              (if Validate(feed).passed then InfoLines(feed) + [PassLine] else [])
  {
  }

  /** Before the item stage, a failing report is its version notice (possibly empty)
      followed by one ERROR. */
  lemma EarlyFailureShape(feed: ParsedFeed)
    requires !ReachesItems(feed)
    ensures !Validate(feed).passed
    ensures var ds := Validate(feed).diagnostics;
            |ds| > 0 && ds[|ds| - 1].severity == Error &&
            forall d :: d in ds[..|ds| - 1] ==> d.severity == Warning
  {
  }

  /** The verdict fails exactly when an ERROR was reported; a passing report ends
      with the one PASS line, and a failing one has no PASS line at all. */
  lemma VerdictIsAbsenceOfErrors(feed: ParsedFeed)
    ensures !Validate(feed).passed <==> HasSeverity(Validate(feed).diagnostics, Error)
    ensures Validate(feed).passed ==>
              var ds := Validate(feed).diagnostics;
              |ds| > 0 && ds[|ds| - 1] == PassLine &&
              forall d :: d in ds[..|ds| - 1] ==> d.severity != Pass
    ensures !Validate(feed).passed ==> !HasSeverity(Validate(feed).diagnostics, Pass)
  {
    if !ReachesItems(feed) {
      EarlyFailureVerdict(feed);
    } else {
      var notice, es, info := VersionNotice(feed.version.value), feed.entries, InfoLines(feed);
      ReachesItemsShape(feed);
      ItemsVerdict(notice, es, info);
      var r := Validate(feed);
      assert r.passed == (ItemErrors(es) == []);
      assert r.diagnostics == notice + ItemSection(es) + (if ItemErrors(es) == [] then info + [PassLine] else []);
    }
  }

  /** The early-failure half of VerdictIsAbsenceOfErrors. */
  lemma EarlyFailureVerdict(feed: ParsedFeed)
    requires !ReachesItems(feed)
    ensures HasSeverity(Validate(feed).diagnostics, Error)
    ensures !HasSeverity(Validate(feed).diagnostics, Pass)
  {
  }

  /** The report of a feed past the channel stage, as a sequence: the version notice, the item
      section and, when the scan found no ERROR, the INFO lines and PASS. */
  lemma ItemsVerdict(notice: seq<Diagnostic>, es: seq<Entry>, info: seq<Diagnostic>)
    requires forall d :: d in notice ==> d.severity == Warning
    requires forall d :: d in info ==> d.severity == Info
    ensures var ds := notice + ItemSection(es) + (if ItemErrors(es) == [] then info + [PassLine] else []);
            (ItemErrors(es) != [] <==> HasSeverity(ds, Error)) &&
            (ItemErrors(es) == [] ==> |ds| > 0 && ds[|ds| - 1] == PassLine &&
                                      forall d :: d in ds[..|ds| - 1] ==> d.severity != Pass) &&
            (ItemErrors(es) != [] ==> !HasSeverity(ds, Pass))
  {
    var items := ItemSection(es);
    ItemSectionSeverities(es);
    HasSeverityConcat(notice, items, Error);
    HasSeverityConcat(notice, items, Pass);
    assert !HasSeverity(notice, Error) && !HasSeverity(notice, Pass);
    if ItemErrors(es) == [] {
      var pre := notice + items + info;
      HasSeverityConcat(notice + items, info, Error);
      HasSeverityConcat(notice + items, info, Pass);
      HasSeverityConcat(pre, [PassLine], Error);
      assert !HasSeverity(info, Error) && !HasSeverity(info, Pass);
      assert !HasSeverity([PassLine], Error);
      assert notice + items + (info + [PassLine]) == pre + [PassLine];
      assert (pre + [PassLine])[..|pre|] == pre;
    } else {
      assert notice + items + [] == notice + items;
    }
  }

  /** A bozo feed fails with the parser's error as its only diagnostic. */
  lemma BozoStopsEverything(feed: ParsedFeed)
    requires feed.bozo
    ensures Validate(feed) == Report([Diagnostic(Error, ParseFailed(feed.bozoException))], false)
  {
  }

  /** A missing version fails at once; a present one that is not RSS 2.0 (the empty
      string included) adds one WARNING and validation goes on exactly as for RSS 2.0. */
  lemma VersionRules(feed: ParsedFeed)
    requires !feed.bozo
    ensures feed.version.None? ==> Validate(feed) == Report([Diagnostic(Error, NoVersion)], false)
    ensures feed.version.Some? && !IsRss20(feed.version.value) ==>
              var asRss20 := Validate(feed.(version := Some("rss20")));
              Validate(feed).diagnostics == [Diagnostic(Warning, NotRss20(feed.version.value))] + asRss20.diagnostics &&
              Validate(feed).passed == asRss20.passed
  {
    // Not needed for validity, but without it the solver needs about four times the work on some seeds.
    if feed.version.Some? && !IsRss20(feed.version.value) {
      assert IsRss20("rss20");
    }
  }

  /** A channel lacking (or with an empty) title, link or description fails with one ERROR
      naming exactly those elements, and nothing about items follows. */
  lemma ChannelRule(feed: ParsedFeed)
    requires !feed.bozo && feed.version.Some?
    ensures (exists n :: n in RequiredChannel && !Truthy(ChannelField(feed.channel, n))) ==>
              var ds := Validate(feed).diagnostics;
              !Validate(feed).passed &&
              ds == VersionNotice(feed.version.value) + [Diagnostic(Error, MissingChannelElements(MissingChannel(feed.channel)))] &&
              forall d :: d in ds ==> !IsItemMessage(d.message)
    ensures (forall n :: n in RequiredChannel ==> Truthy(ChannelField(feed.channel, n))) ==>
              forall d :: d in Validate(feed).diagnostics ==> !d.message.MissingChannelElements?
  {
    MissingChannelExact(feed.channel);
    if MissingChannel(feed.channel) == [] {
      ItemSectionShape(feed.entries);
    }
  }

  /** Past the channel stage the feed fails exactly when some item lacks both title and description. */
  lemma ItemVerdict(feed: ParsedFeed)
    requires ReachesItems(feed)
    ensures Validate(feed).passed <==>
              forall i :: 0 <= i < |feed.entries| ==> !LacksTitleAndDescription(feed.entries[i])
  {
    ItemErrorsEmptyIff(feed.entries);
  }

  /** A report cut at `m` with no item WARNING before the cut and no ERROR after it
      has no item ERROR after an item WARNING. */
  lemma SplitOrder(ds: seq<Diagnostic>, m: nat)
    requires m <= |ds|
    requires forall d :: d in ds[..m] ==> !(IsItemMessage(d.message) && d.severity == Warning)
    requires forall d :: d in ds[m..] ==> d.severity != Error
    ensures forall j, k :: 0 <= j < k < |ds| && IsItemMessage(ds[j].message) && ds[j].severity == Warning
              ==> ds[k].severity != Error
  {
  }

  /** Past the channel stage, no item ERROR follows an item WARNING. */
  lemma ItemErrorsBeforeWarnings(feed: ParsedFeed)
    requires ReachesItems(feed)
    ensures forall j, k :: 0 <= j < k < |Validate(feed).diagnostics| &&
              IsItemMessage(Validate(feed).diagnostics[j].message) &&
              Validate(feed).diagnostics[j].severity == Warning
              ==> Validate(feed).diagnostics[k].severity != Error
  {
    var notice, es := VersionNotice(feed.version.value), feed.entries;
    var rest := if ItemErrors(es) != [] then [] else InfoLines(feed) + [PassLine];
    ReachesItemsShape(feed);
    SectionOrder(notice, es, rest);
    var r := Validate(feed);
    assert r.diagnostics == notice + ItemSection(es) + rest;
  }

  /** The ordering argument of ItemErrorsBeforeWarnings on the report as a sequence. */
  lemma SectionOrder(notice: seq<Diagnostic>, es: seq<Entry>, rest: seq<Diagnostic>)
    requires forall d :: d in notice ==> d.message.NotRss20?
    requires forall d :: d in rest ==> d.severity == Info || d.severity == Pass
    ensures var ds := notice + ItemSection(es) + rest;
            forall j, k :: 0 <= j < k < |ds| && IsItemMessage(ds[j].message) && ds[j].severity == Warning
              ==> ds[k].severity != Error
  {
    var ds := notice + ItemSection(es) + rest;
    var m := |notice| + |ItemErrors(es)|;
    SectionCut(notice, es, rest);
    SplitOrder(ds, m);
  }

  /** Cut after the item ERRORs, the report has no item WARNING before the cut and no ERROR after it. */
  lemma SectionCut(notice: seq<Diagnostic>, es: seq<Entry>, rest: seq<Diagnostic>)
    requires forall d :: d in notice ==> d.message.NotRss20?
    requires forall d :: d in rest ==> d.severity == Info || d.severity == Pass
    ensures var ds := notice + ItemSection(es) + rest;
            var m := |notice| + |ItemErrors(es)|;
            m <= |ds| &&
            (forall d :: d in ds[..m] ==> !(IsItemMessage(d.message) && d.severity == Warning)) &&
            (forall d :: d in ds[m..] ==> d.severity != Error)
  {
    var items := ItemSection(es);
    var errs := ItemErrors(es);
    var ds := notice + items + rest;
    ItemSectionShape(es);
    ItemErrorsKinds(es);
    SliceOfConcat(notice, items, rest, |errs|);
    var before, after := notice + errs, items[|errs|..] + rest;
    forall d | d in before ensures !(IsItemMessage(d.message) && d.severity == Warning) {
      assert d in notice || d in errs;
    }
    forall d | d in after ensures d.severity != Error {
      assert d in items[|errs|..] || d in rest;
    }
  }

  /** Cutting `a + b + c` inside `b`. */
  lemma SliceOfConcat<T>(a: seq<T>, b: seq<T>, c: seq<T>, n: nat)
    requires n <= |b|
    ensures (a + b + c)[..|a| + n] == a + b[..n]
    ensures (a + b + c)[|a| + n..] == b[n..] + c
  {
  }

  /** An empty item list gives one "no items" WARNING and does not fail the feed by itself. */
  lemma NoItemsOnlyWarns(feed: ParsedFeed)
    requires ReachesItems(feed) && feed.entries == []
    ensures Validate(feed).passed
    ensures Validate(feed).diagnostics ==
              VersionNotice(feed.version.value) + [Diagnostic(Warning, NoItems)] + InfoLines(feed) + [PassLine]
  {
  }

  /** A passing report ends with its INFO lines and the PASS line. */
  lemma PassingTail(feed: ParsedFeed)
    requires Validate(feed).passed
    ensures var ds := Validate(feed).diagnostics;
            var info := InfoLines(feed);
            |ds| >= |info| + 1 && ds[|ds| - |info| - 1..] == info + [PassLine]
  {
  }

  /** The INFO lines: first the item count, equal to the number of items, then a language
      line and a generator line exactly when the parser set those fields. */
  lemma InfoLinesShape(feed: ParsedFeed)
    ensures InfoLines(feed)[0] == Diagnostic(Info, ItemCount(|feed.entries|))
    ensures (exists k :: 0 <= k < |InfoLines(feed)| && InfoLines(feed)[k].message.Language?) <==> feed.channel.language.Some?
    ensures (exists k :: 0 <= k < |InfoLines(feed)| && InfoLines(feed)[k].message.Generator?) <==> feed.channel.generator.Some?
    ensures forall d :: d in InfoLines(feed) ==> d.severity == Info
  {
    var info := InfoLines(feed);
    if feed.channel.language.Some? {
      assert info[1].message.Language?;
    }
    if feed.channel.generator.Some? {
      assert info[|info| - 1].message.Generator?;
    }
  }

  /** The facts the verdict depends on: everything but guid, pubDate, link, language,
      generator, the version's value and the item and channel values themselves. */
  predicate SameRequiredFacts(f: ParsedFeed, g: ParsedFeed) {
    f.bozo == g.bozo && f.version.Some? == g.version.Some? &&
    (forall n :: n in RequiredChannel ==> Truthy(ChannelField(f.channel, n)) == Truthy(ChannelField(g.channel, n))) &&
    |f.entries| == |g.entries| &&
    forall i :: 0 <= i < |f.entries| ==>
      LacksTitleAndDescription(f.entries[i]) == LacksTitleAndDescription(g.entries[i])
  }

  /** WARNING- and INFO-only facts never change the verdict. */
  lemma WarningsDoNotDecide(f: ParsedFeed, g: ParsedFeed)
    requires SameRequiredFacts(f, g)
    ensures Validate(f).passed == Validate(g).passed
  {
    PassedIff(f);
    PassedIff(g);
    MissingChannelExact(f.channel);
    MissingChannelExact(g.channel);
    ItemErrorsEmptyIff(f.entries);
    ItemErrorsEmptyIff(g.entries);
  }

  /** A feed passes exactly when it reaches the item stage and the error scan finds nothing. */
  lemma PassedIff(feed: ParsedFeed)
    ensures Validate(feed).passed <==> ReachesItems(feed) && ItemErrors(feed.entries) == []
  {
  }

  /** A source that could not be read or fetched fails with one ERROR and nothing else. */
  lemma AcquisitionFailureStops(source: string, e: AcquireError)
    ensures ValidateSource(source, Failed(e)).diagnostics == [Diagnostic(Error, AcquireMessage(source, e))]
    ensures !ValidateSource(source, Failed(e)).passed
    ensures IsUrl(source) && e.UrlError? ==> AcquireMessage(source, e) == CannotFetchUrl(e.detail)
    ensures IsUrl(source) && e.OtherError? ==> AcquireMessage(source, e) == CannotReadUrl(e.detail)
    ensures !IsUrl(source) ==> AcquireMessage(source, e) == CannotReadFile(e.detail)
  {
  }

  // ---------------------------------------------------------------- scenarios

  const CompleteChannel: Channel := Channel(Some("T"), Some("http://x"), Some("D"), None, None)

  /** A channel with title, link and description, version rss20 and one item with only
      a title: it passes with exactly three WARNINGs for item 0 and an item count of 1. */
  lemma TitleOnlyItemScenario()
    ensures var feed := ParsedFeed(false, "", Some("rss20"), CompleteChannel, [Entry(Some("Hi"), None, None, None, None)]);
            Validate(feed) == Report([
              Diagnostic(Warning, ItemMissingGuid(0)),
              Diagnostic(Warning, ItemMissingPubDate(0)),
              Diagnostic(Warning, ItemMissingLink(0)),
              Diagnostic(Info, ItemCount(1)),
              PassLine], true)
  {
    var feed := ParsedFeed(false, "", Some("rss20"), CompleteChannel, [Entry(Some("Hi"), None, None, None, None)]);
    assert IsRss20("rss20");
    MissingChannelParts(CompleteChannel);
    assert MissingChannel(CompleteChannel) == [];
    var es := feed.entries;
    assert es[..0] == [];
    assert ItemErrors(es) == [];
    assert ItemWarnings(es) == WarningsOf(0, es[0]);
  }

  /** An empty channel description fails with one ERROR naming only the description. */
  lemma EmptyDescriptionScenario()
    ensures var feed := ParsedFeed(false, "", Some("rss20"), CompleteChannel.(description := Some("")), []);
            Validate(feed) == Report([Diagnostic(Error, MissingChannelElements(["description"]))], false)
  {
    var ch := CompleteChannel.(description := Some(""));
    assert IsRss20("rss20");
    MissingChannelParts(ch);
    assert MissingChannel(ch) == ["description"];
  }

  /** The channel ERROR's text lists the missing names separated by ", ", as in
      "Missing required channel elements: description" or "...: title, link". */
  lemma ChannelMessageText(a: string, b: string, c: string)
    ensures MessageText(MissingChannelElements([a])) == "Missing required channel elements: " + a
    ensures MessageText(MissingChannelElements([a, b])) == "Missing required channel elements: " + a + ", " + b
    ensures MessageText(MissingChannelElements([a, b, c])) ==
              "Missing required channel elements: " + a + ", " + b + ", " + c
  {
    var prefix := "Missing required channel elements: ";
    assert Join([a], ", ") == a;
    assert [a, b][1..] == [b];
    assert Join([a, b], ", ") == a + ", " + b;
    assert prefix + (a + ", " + b) == prefix + a + ", " + b;
    assert [a, b, c][1..] == [b, c];
    assert [b, c][1..] == [c];
    assert Join([c], ", ") == c;
    assert Join([b, c], ", ") == b + ", " + c;
    assert Join([a, b, c], ", ") == a + ", " + (b + ", " + c);
    assert prefix + (a + ", " + (b + ", " + c)) == prefix + a + ", " + b + ", " + c;
  }
}
