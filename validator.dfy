/**
 `validate_rss` as the program runs it: the channel loop collecting
 `missing_elements`, the item loop collecting `errors` and `warnings`, the early
 returns. Each method is proved to report exactly what module Rules specifies,
 so every property proved there holds of what these methods return.
 */
module Validator {
  import opened Text
  import opened Feed
  import opened Rules

  /** Lines 64-68: the channel loop building `missing_elements`. */
  method CollectMissingChannel(ch: Channel) returns (missing: seq<string>)
    ensures missing == MissingChannel(ch)
  {
    missing := [];
    for k := 0 to |RequiredChannel|
      invariant missing == MissingAmong(RequiredChannel[..k], ch)
    {
      var elem := RequiredChannel[k];
      assert RequiredChannel[..k + 1][..k] == RequiredChannel[..k];
      var value := ChannelField(ch, elem);
      if value.None? || value.value == "" {
        missing := missing + [elem];
      }
    }
    assert RequiredChannel[..|RequiredChannel|] == RequiredChannel;
  }

  /** Lines 81-96: the scan over all items building `errors` and `warnings`. */
  method ScanItems(entries: seq<Entry>) returns (errors: seq<Diagnostic>, warnings: seq<Diagnostic>)
    ensures errors == ItemErrors(entries)
    ensures warnings == ItemWarnings(entries)
  {
    errors, warnings := [], [];
    for i := 0 to |entries|
      invariant errors == ItemErrors(entries[..i])
      invariant warnings == ItemWarnings(entries[..i])
    {
      ghost var done, upTo := entries[..i], entries[..i + 1];
      assert upTo[..i] == done && upTo[i] == entries[i];
      errors, warnings := CheckItem(i, entries[i], errors, warnings);
    }
    assert entries[..|entries|] == entries;
  }

  /** Lines 83-96: the checks on item `i`, appending to `errors` and `warnings`. */
  method CheckItem(i: nat, entry: Entry, errors0: seq<Diagnostic>, warnings0: seq<Diagnostic>)
    returns (errors: seq<Diagnostic>, warnings: seq<Diagnostic>)
    ensures errors == errors0 + ErrorsOf(i, entry)
    ensures warnings == warnings0 + WarningsOf(i, entry)
  {
    errors, warnings := errors0, warnings0;
    if entry.title.None? && entry.description.None? {
      errors := errors + [Diagnostic(Error, ItemMissingTitleAndDescription(i))];
    }
    ghost var guid := if entry.id.None? then [Diagnostic(Warning, ItemMissingGuid(i))] else [];
    ghost var pubDate := if entry.published.None? then [Diagnostic(Warning, ItemMissingPubDate(i))] else [];
    ghost var link := if entry.link.None? then [Diagnostic(Warning, ItemMissingLink(i))] else [];
    if entry.id.None? {
      warnings := warnings + [Diagnostic(Warning, ItemMissingGuid(i))];
    }
    assert warnings == warnings0 + guid;
    if entry.published.None? {
      warnings := warnings + [Diagnostic(Warning, ItemMissingPubDate(i))];
    }
    assert warnings == warnings0 + guid + pubDate;
    if entry.link.None? {
      warnings := warnings + [Diagnostic(Warning, ItemMissingLink(i))];
    }
    assert warnings == warnings0 + guid + pubDate + link;
    assert WarningsOf(i, entry) == guid + pubDate + link;
  }

  /** Lines 50-115: the rule checks on an already parsed feed. */
  method ValidateParsed(feed: ParsedFeed) returns (diags: seq<Diagnostic>, passed: bool)
    ensures Report(diags, passed) == Validate(feed)
  {
    if feed.bozo {
      return [Diagnostic(Error, ParseFailed(feed.bozoException))], false;
    }
    if feed.version.None? {
      return [Diagnostic(Error, NoVersion)], false;
    }
    var version := feed.version.value;
    diags := [];
    if !StartsWith(version, "rss20") {
      diags := [Diagnostic(Warning, NotRss20(version))];
    }
    assert diags == VersionNotice(version);

    var missing := CollectMissingChannel(feed.channel);
    if missing != [] {
      return diags + [Diagnostic(Error, MissingChannelElements(missing))], false;
    }

    var entries := feed.entries;
    var section: seq<Diagnostic>;
    if |entries| == 0 {
      section := [Diagnostic(Warning, NoItems)];
      assert ItemErrors(entries) == [];
    } else {
      var errors, warnings := ScanItems(entries);
      section := errors + warnings;
      if errors != [] {
        return diags + section, false;
      }
    }
    assert section == ItemSection(entries);
    diags := diags + section;

    var info := [Diagnostic(Info, ItemCount(|entries|))];
    if feed.channel.language.Some? {
      info := info + [Diagnostic(Info, Language(feed.channel.language.value))];
    }
    if feed.channel.generator.Some? {
      info := info + [Diagnostic(Info, Generator(feed.channel.generator.value))];
    }
    assert info == InfoLines(feed);
    diags := diags + info + [PassLine];
    passed := true;
  }

  /** Lines 23-115: one source, given how reading or fetching it ended. */
  method ValidateRss(source: string, acquired: Acquisition) returns (diags: seq<Diagnostic>, passed: bool)
    ensures Report(diags, passed) == ValidateSource(source, acquired)
  {
    match acquired
    case Failed(e) =>
      var message;
      if StartsWith(source, "http://") || StartsWith(source, "https://") {
        message := if e.UrlError? then CannotFetchUrl(e.detail) else CannotReadUrl(e.detail);
      } else {
        message := CannotReadFile(e.detail);
      }
      diags, passed := [Diagnostic(Error, message)], false;
    case Parsed(feed) =>
      diags, passed := ValidateParsed(feed);
  }
}
