/**
 The RSS 2.0 compliance rules as functions of the parsed feed: what
 `validate_rss` reports about one feed and whether it passes. The imperative
 validator in module Validator is proved to compute exactly these values.
 */
module Rules {
  import opened Text
  import opened Feed

  /** The result of validating one source: its diagnostics in emission order, and the verdict. */
  datatype Report = Report(diagnostics: seq<Diagnostic>, passed: bool)

  const PassLine: Diagnostic := Diagnostic(Pass, Successful)

  // ---------------------------------------------------------------- channel

  /** The names among `names` whose channel element is absent or empty, kept in the order of `names`. */
  function MissingAmong(names: seq<string>, ch: Channel): seq<string> {
    if names == [] then []
    else
      var last := names[|names| - 1];
      MissingAmong(names[..|names| - 1], ch) + (if Truthy(ChannelField(ch, last)) then [] else [last])
  }

  /** `missing_elements` once the channel loop has run. */
  function MissingChannel(ch: Channel): seq<string> {
    MissingAmong(RequiredChannel, ch)
  }

  /** Position of a required element in the fixed check order. */
  function ChannelRank(name: string): nat {
    if name == "title" then 0 else if name == "link" then 1 else 2
  }

  /** The channel loop run out over title, link and description. */
  lemma MissingChannelParts(ch: Channel)
    ensures MissingChannel(ch) ==
              (if Truthy(ch.title) then [] else ["title"]) +
              (if Truthy(ch.link) then [] else ["link"]) +
              (if Truthy(ch.description) then [] else ["description"])
  {
    var names := RequiredChannel;
    assert names[..1][..0] == [];
    assert names[..2][..1] == names[..1] == ["title"];
    assert names[..3][..2] == names[..2] == ["title", "link"];
    assert names[..3] == names;
    var t := if Truthy(ch.title) then [] else ["title"];
    var l := if Truthy(ch.link) then [] else ["link"];
    var d := if Truthy(ch.description) then [] else ["description"];
    assert MissingAmong(names[..1], ch) == t;
    assert MissingAmong(names[..2], ch) == t + l;
    assert MissingAmong(names, ch) == t + l + d;
  }

  /** The channel ERROR names exactly the absent-or-empty required elements,
      each once, in the fixed order title, link, description. */
  lemma MissingChannelExact(ch: Channel)
    ensures forall n :: n in MissingChannel(ch) <==> n in RequiredChannel && !Truthy(ChannelField(ch, n))
    ensures forall j, k :: 0 <= j < k < |MissingChannel(ch)| ==>
              ChannelRank(MissingChannel(ch)[j]) < ChannelRank(MissingChannel(ch)[k])
    ensures MissingChannel(ch) == [] <==> forall n :: n in RequiredChannel ==> Truthy(ChannelField(ch, n))
  {
    MissingChannelParts(ch);
    assert ChannelField(ch, "title") == ch.title;
    assert ChannelField(ch, "link") == ch.link;
    assert ChannelField(ch, "description") == ch.description;
  }

  // ---------------------------------------------------------------- items

  /** What `errors` gains for item `i`. */
  function ErrorsOf(i: nat, e: Entry): seq<Diagnostic> {
    if LacksTitleAndDescription(e) then [Diagnostic(Error, ItemMissingTitleAndDescription(i))] else []
  }

  /** What `warnings` gains for item `i`: guid, then pubDate, then link. */
  function WarningsOf(i: nat, e: Entry): seq<Diagnostic> {
    (if e.id.None? then [Diagnostic(Warning, ItemMissingGuid(i))] else [])
    + (if e.published.None? then [Diagnostic(Warning, ItemMissingPubDate(i))] else [])
    + (if e.link.None? then [Diagnostic(Warning, ItemMissingLink(i))] else [])
  }

  /** `errors` after the scan over `es`, item by item. */
  function ItemErrors(es: seq<Entry>): seq<Diagnostic> {
    if es == [] then [] else ItemErrors(es[..|es| - 1]) + ErrorsOf(|es| - 1, es[|es| - 1])
  }

  /** `warnings` after the scan over `es`, item by item. */
  function ItemWarnings(es: seq<Entry>): seq<Diagnostic> {
    if es == [] then [] else ItemWarnings(es[..|es| - 1]) + WarningsOf(|es| - 1, es[|es| - 1])
  }

  predicate IsItemWarning(m: Message) {
    m.ItemMissingGuid? || m.ItemMissingPubDate? || m.ItemMissingLink?
  }

  /** Sort key of an item warning: by item index, then guid < pubDate < link. */
  function WarningKey(m: Message): nat
    requires IsItemWarning(m)
  {
    3 * m.index + (if m.ItemMissingGuid? then 0 else if m.ItemMissingPubDate? then 1 else 2)
  }

  /** The item a warning names exists and lacks the field the warning names. */
  predicate WarningApplies(es: seq<Entry>, m: Message)
    requires IsItemWarning(m)
  {
    m.index < |es| &&
    match m
    case ItemMissingGuid(i) => es[i].id.None?
    case ItemMissingPubDate(i) => es[i].published.None?
    case ItemMissingLink(i) => es[i].link.None?
  }

  /** Number of optional item fields (guid, pubDate, link) an item lacks. */
  function MissingOptional(e: Entry): nat {
    (if e.id.None? then 1 else 0) + (if e.published.None? then 1 else 0) + (if e.link.None? then 1 else 0)
  }

  function MissingOptionalTotal(es: seq<Entry>): nat {
    if es == [] then 0 else MissingOptional(es[0]) + MissingOptionalTotal(es[1..])
  }

  /** One ERROR per item lacking both title and description, and no other:
      each names such an item, in ascending index order, and every such item is named. */
  lemma {:induction false} ItemErrorsExact(es: seq<Entry>)
    ensures forall k :: 0 <= k < |ItemErrors(es)| ==>
              var d := ItemErrors(es)[k];
              d.severity == Error && d.message.ItemMissingTitleAndDescription? &&
              d.message.index < |es| && LacksTitleAndDescription(es[d.message.index])
    ensures forall j, k :: 0 <= j < k < |ItemErrors(es)| ==>
              ItemErrors(es)[j].message.index < ItemErrors(es)[k].message.index
    ensures forall i :: 0 <= i < |es| && LacksTitleAndDescription(es[i]) ==>
              Diagnostic(Error, ItemMissingTitleAndDescription(i)) in ItemErrors(es)
  {
    if es != [] {
      var init := es[..|es| - 1];
      ItemErrorsExact(init);
      assert forall i :: 0 <= i < |init| ==> init[i] == es[i];
      assert ItemErrors(es) == ItemErrors(init) + ErrorsOf(|es| - 1, es[|es| - 1]);
    }
  }

  /** The scan yields no ERROR exactly when every item has a title or a description. */
  lemma ItemErrorsEmptyIff(es: seq<Entry>)
    ensures ItemErrors(es) == [] <==> forall i :: 0 <= i < |es| ==> !LacksTitleAndDescription(es[i])
  {
  }

  /** Every diagnostic of the error scan is an item ERROR. */
  lemma {:induction false} ItemErrorsKinds(es: seq<Entry>)
    ensures forall d :: d in ItemErrors(es) ==> d.severity == Error && d.message.ItemMissingTitleAndDescription?
  {
    if es != [] {
      ItemErrorsKinds(es[..|es| - 1]);
    }
  }

  /** Every diagnostic of the warning scan is an item WARNING about guid, pubDate or link. */
  lemma {:induction false} ItemWarningsKinds(es: seq<Entry>)
    ensures forall d :: d in ItemWarnings(es) ==> d.severity == Warning && IsItemWarning(d.message)
  {
    if es != [] {
      ItemWarningsKinds(es[..|es| - 1]);
    }
  }

  /** The warnings of one item name that item, lack the fields they name, come in
      guid, pubDate, link order, and cover every field the item lacks. */
  lemma WarningsOfExact(es: seq<Entry>, i: nat)
    requires i < |es|
    ensures forall k :: 0 <= k < |WarningsOf(i, es[i])| ==>
              var d := WarningsOf(i, es[i])[k];
              d.severity == Warning && IsItemWarning(d.message) && d.message.index == i &&
              WarningApplies(es, d.message)
    ensures forall j, k :: 0 <= j < k < |WarningsOf(i, es[i])| ==>
              WarningKey(WarningsOf(i, es[i])[j].message) < WarningKey(WarningsOf(i, es[i])[k].message)
    ensures es[i].id.None? ==> Diagnostic(Warning, ItemMissingGuid(i)) in WarningsOf(i, es[i])
    ensures es[i].published.None? ==> Diagnostic(Warning, ItemMissingPubDate(i)) in WarningsOf(i, es[i])
    ensures es[i].link.None? ==> Diagnostic(Warning, ItemMissingLink(i)) in WarningsOf(i, es[i])
  {
  }

  /** Every item WARNING names an item that lacks the field it names. */
  lemma {:induction false} ItemWarningsSound(es: seq<Entry>)
    ensures forall k :: 0 <= k < |ItemWarnings(es)| ==>
              var d := ItemWarnings(es)[k];
              d.severity == Warning && IsItemWarning(d.message) && WarningApplies(es, d.message)
  {
    if es != [] {
      var n := |es| - 1;
      var init := es[..n];
      ItemWarningsSound(init);
      WarningsOfExact(es, n);
      assert forall i :: 0 <= i < n ==> init[i] == es[i];
      assert ItemWarnings(es) == ItemWarnings(init) + WarningsOf(n, es[n]);
    }
  }

  /** Item WARNINGs come in ascending item order, guid before pubDate before link within an item. */
  lemma {:induction false} ItemWarningsOrdered(es: seq<Entry>)
    ensures forall j, k :: 0 <= j < k < |ItemWarnings(es)| ==>
              IsItemWarning(ItemWarnings(es)[j].message) && IsItemWarning(ItemWarnings(es)[k].message) &&
              WarningKey(ItemWarnings(es)[j].message) < WarningKey(ItemWarnings(es)[k].message)
  {
    if es != [] {
      var n := |es| - 1;
      var init := es[..n];
      ItemWarningsOrdered(init);
      ItemWarningsSound(init);
      WarningsOfExact(es, n);
      var w := ItemWarnings(init);
      var tail := WarningsOf(n, es[n]);
      var all := w + tail;
      assert ItemWarnings(es) == all;
      forall j, k | 0 <= j < k < |all|
        ensures IsItemWarning(all[j].message) && IsItemWarning(all[k].message)
        ensures WarningKey(all[j].message) < WarningKey(all[k].message)
      {
        if k < |w| {
          assert all[j] == w[j] && all[k] == w[k];
        } else if j >= |w| {
          assert all[j] == tail[j - |w|] && all[k] == tail[k - |w|];
        } else {
          assert all[j] == w[j] && all[k] == tail[k - |w|];
          assert WarningKey(w[j].message) < 3 * n;
        }
      }
      assert forall j, k :: 0 <= j < k < |all| ==>
              IsItemWarning(all[j].message) && IsItemWarning(all[k].message) &&
              WarningKey(all[j].message) < WarningKey(all[k].message);
    } else {
      assert ItemWarnings(es) == [];
    }
  }

  /** Every missing guid, pubDate and link of every item is reported. */
  lemma {:induction false} ItemWarningsComplete(es: seq<Entry>)
    ensures forall i :: 0 <= i < |es| ==>
              (es[i].id.None? ==> Diagnostic(Warning, ItemMissingGuid(i)) in ItemWarnings(es)) &&
              (es[i].published.None? ==> Diagnostic(Warning, ItemMissingPubDate(i)) in ItemWarnings(es)) &&
              (es[i].link.None? ==> Diagnostic(Warning, ItemMissingLink(i)) in ItemWarnings(es))
  {
    if es != [] {
      var n := |es| - 1;
      var init := es[..n];
      ItemWarningsComplete(init);
      WarningsOfExact(es, n);
      var w := ItemWarnings(init);
      var tail := WarningsOf(n, es[n]);
      assert ItemWarnings(es) == w + tail;
      forall i | 0 <= i < |es|
        ensures es[i].id.None? ==> Diagnostic(Warning, ItemMissingGuid(i)) in w + tail
        ensures es[i].published.None? ==> Diagnostic(Warning, ItemMissingPubDate(i)) in w + tail
        ensures es[i].link.None? ==> Diagnostic(Warning, ItemMissingLink(i)) in w + tail
      {
        if i < n {
          assert init[i] == es[i];
        }
      }
    }
  }

  /** Adding one item to the end adds its missing-field count. */
  lemma {:induction false} MissingOptionalTotalSnoc(es: seq<Entry>, e: Entry)
    ensures MissingOptionalTotal(es + [e]) == MissingOptionalTotal(es) + MissingOptional(e)
  {
    if es == [] {
      assert [e][1..] == [];
    } else {
      assert (es + [e])[1..] == es[1..] + [e];
      MissingOptionalTotalSnoc(es[1..], e);
    }
  }

  /** The number of item WARNINGs is the total number of missing optional fields. */
  lemma {:induction false} ItemWarningsCount(es: seq<Entry>)
    ensures |ItemWarnings(es)| == MissingOptionalTotal(es)
  {
    if es != [] {
      var n := |es| - 1;
      ItemWarningsCount(es[..n]);
      MissingOptionalTotalSnoc(es[..n], es[n]);
      assert es[..n] + [es[n]] == es;
    }
  }

  // ---------------------------------------------------------------- whole feed

  /** INFO lines of a passing run: the item count, then language and generator when set. */
  function InfoLines(feed: ParsedFeed): seq<Diagnostic> {
    [Diagnostic(Info, ItemCount(|feed.entries|))]
    + (if feed.channel.language.Some? then [Diagnostic(Info, Language(feed.channel.language.value))] else [])
    + (if feed.channel.generator.Some? then [Diagnostic(Info, Generator(feed.channel.generator.value))] else [])
  }

  /** The WARNING issued for a detected version that is not RSS 2.0, if any. */
  function VersionNotice(version: string): seq<Diagnostic> {
    if IsRss20(version) then [] else [Diagnostic(Warning, NotRss20(version))]
  }

  /** The item section: "no items" for an empty feed, else all item ERRORs, then all item WARNINGs. */
  function ItemSection(es: seq<Entry>): seq<Diagnostic> {
    if es == [] then [Diagnostic(Warning, NoItems)] else ItemErrors(es) + ItemWarnings(es)
  }

  /** What `validate_rss` reports for a parsed feed (lines 50-115). */
  function Validate(feed: ParsedFeed): Report {
    if feed.bozo then Report([Diagnostic(Error, ParseFailed(feed.bozoException))], false)
    else if feed.version.None? then Report([Diagnostic(Error, NoVersion)], false)
    else
      var notice := VersionNotice(feed.version.value);
      var missing := MissingChannel(feed.channel);
      if missing != [] then Report(notice + [Diagnostic(Error, MissingChannelElements(missing))], false)
      else if ItemErrors(feed.entries) != [] then Report(notice + ItemSection(feed.entries), false)
      else Report(notice + ItemSection(feed.entries) + InfoLines(feed) + [PassLine], true)
  }

  /** `http://` or `https://` source, the check made at lines 28, 121 and 146. */
  predicate IsUrl(s: string) {
    StartsWithAny(s, ["http://", "https://"])
  }

  /** `IsUrl` is the two-prefix test the program writes out. */
  lemma UrlTest(s: string)
    ensures IsUrl(s) <==> StartsWith(s, "http://") || StartsWith(s, "https://")
  {
  }

  /** The ERROR for a source that could not be read or fetched (lines 32-45). */
  function AcquireMessage(source: string, e: AcquireError): Message {
    if IsUrl(source) then
      match e
      case UrlError(d) => CannotFetchUrl(d)
      case OtherError(d) => CannotReadUrl(d)
    else CannotReadFile(e.detail)
  }

  /** What `validate_rss(source)` reports, given how acquiring the source ended. */
  function ValidateSource(source: string, acq: Acquisition): Report {
    match acq
    case Failed(e) => Report([Diagnostic(Error, AcquireMessage(source, e))], false)
    case Parsed(feed) => Validate(feed)
  }
}
