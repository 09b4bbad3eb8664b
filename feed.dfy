/**
 The feed as the external parser hands it over, and the diagnostics the
 validator reports about it.

 Every field the parser may or may not set is an `Option`: `None` is an
 attribute the parser did not set (`hasattr` is false), `Some("")` one it set
 to the empty string.
 */
module Feed {
  import opened Text

  /** The channel block (`feed.feed`). */
  datatype Channel = Channel(
    title: Option<string>,
    link: Option<string>,
    description: Option<string>,
    language: Option<string>,
    generator: Option<string>)

  /** One item (`feed.entries[i]`); `id` is the item's guid, `published` its pubDate. */
  datatype Entry = Entry(
    title: Option<string>,
    description: Option<string>,
    id: Option<string>,
    published: Option<string>,
    link: Option<string>)

  /** The parser's result: the bozo flag and its exception text, the detected
      version, the channel and the items in document order. */
  datatype ParsedFeed = ParsedFeed(
    bozo: bool,
    bozoException: string,
    version: Option<string>,
    channel: Channel,
    entries: seq<Entry>)

  /** How reading or fetching a source ended: the parsed content, or the
      exception that stopped it. `UrlError` is `urllib.error.URLError`;
      `OtherError` is any other exception (a decode error, an OS error). */
  datatype AcquireError = UrlError(detail: string) | OtherError(detail: string)

  datatype Acquisition = Parsed(feed: ParsedFeed) | Failed(error: AcquireError)

  datatype Severity = Error | Warning | Info | Pass

  /** What a diagnostic says; `Render` gives the line the validator prints. */
  datatype Message =
    | CannotFetchUrl(detail: string)
    | CannotReadUrl(detail: string)
    | CannotReadFile(detail: string)
    | ParseFailed(detail: string)
    | NoVersion
    | NotRss20(found: string)
    | MissingChannelElements(names: seq<string>)
    | NoItems
    | ItemMissingTitleAndDescription(index: nat)
    | ItemMissingGuid(index: nat)
    | ItemMissingPubDate(index: nat)
    | ItemMissingLink(index: nat)
    | ItemCount(count: nat)
    | Language(value: string)
    | Generator(value: string)
    | Successful

  datatype Diagnostic = Diagnostic(severity: Severity, message: Message)

  /** The three channel elements that must be present and non-empty, in the order they are checked. */
  const RequiredChannel: seq<string> := ["title", "link", "description"]

  /** `getattr(feed.feed, name)` for a required element name. */
  function ChannelField(ch: Channel, name: string): Option<string> {
    if name == "title" then ch.title
    else if name == "link" then ch.link
    else if name == "description" then ch.description
    else None
  }

  /** `hasattr(x, f) and getattr(x, f)`: set, and a non-empty string. */
  predicate Truthy(o: Option<string>) {
    o.Some? && o.value != ""
  }

  /** The RSS 2.0 test on the detected version: `version.startswith('rss20')`. */
  predicate IsRss20(version: string) {
    StartsWith(version, "rss20")
  }

  /** An item is in error when the parser set neither its title nor its description. */
  predicate LacksTitleAndDescription(e: Entry) {
    e.title.None? && e.description.None?
  }

  predicate IsItemMessage(m: Message) {
    m.ItemMissingTitleAndDescription? || m.ItemMissingGuid? || m.ItemMissingPubDate? || m.ItemMissingLink?
  }

  function SeverityTag(s: Severity): string {
    match s
    case Error => "ERROR"
    case Warning => "WARNING"
    case Info => "INFO"
    case Pass => "PASS"
  }

  function MessageText(m: Message): string {
    match m
    case CannotFetchUrl(d) => "Cannot fetch URL - " + d
    case CannotReadUrl(d) => "Failed to read from URL - " + d
    case CannotReadFile(d) => "Cannot read file - " + d
    case ParseFailed(d) => "Feed parsing failed - " + d
    case NoVersion => "No RSS version specified"
    case NotRss20(v) => "Not RSS 2.0 (found: " + v + ")"
    case MissingChannelElements(names) => "Missing required channel elements: " + Join(names, ", ")
    case NoItems => "No items found in feed"
    case ItemMissingTitleAndDescription(i) => "Item " + NatToString(i) + " missing both title and description"
    case ItemMissingGuid(i) => "Item " + NatToString(i) + " missing guid"
    case ItemMissingPubDate(i) => "Item " + NatToString(i) + " missing pubDate"
    case ItemMissingLink(i) => "Item " + NatToString(i) + " missing link"
    case ItemCount(n) => "Found " + NatToString(n) + " items"
    case Language(v) => "Language: " + v
    case Generator(v) => "Generator: " + v
    case Successful => "RSS 2.0 validation successful"
  }

  /** The printed line, with its two-space indent and severity tag. */
  function Render(d: Diagnostic): (line: string)
    ensures StartsWith(line, "  " + SeverityTag(d.severity) + ": ")
  {
    "  " + SeverityTag(d.severity) + ": " + MessageText(d.message)
  }

  /** Item messages of one kind print the same text only for the same index. */
  lemma ItemTextIdentifiesIndex(i: nat, j: nat)
    ensures MessageText(ItemMissingTitleAndDescription(i)) == MessageText(ItemMissingTitleAndDescription(j)) ==> i == j
    ensures MessageText(ItemMissingGuid(i)) == MessageText(ItemMissingGuid(j)) ==> i == j
    ensures MessageText(ItemMissingPubDate(i)) == MessageText(ItemMissingPubDate(j)) ==> i == j
    ensures MessageText(ItemMissingLink(i)) == MessageText(ItemMissingLink(j)) ==> i == j
  {
    NatToStringInjective(i, j);
    var a, b := NatToString(i), NatToString(j);
    ItemTextDeterminesNumber(a, b, " missing both title and description");
    ItemTextDeterminesNumber(a, b, " missing guid");
    ItemTextDeterminesNumber(a, b, " missing pubDate");
    ItemTextDeterminesNumber(a, b, " missing link");
  }

  /** Length of the run of digits a string starts with. */
  function DigitRun(s: string): nat {
    if s == [] || !IsDigit(s[0]) then 0 else 1 + DigitRun(s[1..])
  }

  lemma {:induction false} DigitRunOfDigitsThenSpace(a: string, tail: string)
    requires forall k :: 0 <= k < |a| ==> IsDigit(a[k])
    requires |tail| > 0 && tail[0] == ' '
    ensures DigitRun(a + tail) == |a|
  {
    if a != [] {
      assert (a + tail)[1..] == a[1..] + tail;
      DigitRunOfDigitsThenSpace(a[1..], tail);
    }
  }

  /** `"Item " + a + tail` determines `a` when `a` and `b` are digit runs. */
  lemma ItemTextDeterminesNumber(a: string, b: string, tail: string)
    requires forall k :: 0 <= k < |a| ==> IsDigit(a[k])
    requires forall k :: 0 <= k < |b| ==> IsDigit(b[k])
    requires |tail| > 0 && tail[0] == ' '
    ensures "Item " + a + tail == "Item " + b + tail ==> a == b
  {
    if "Item " + a + tail == "Item " + b + tail {
      var s := "Item " + a + tail;
      assert s[5..] == a + tail;
      assert ("Item " + b + tail)[5..] == b + tail;
      DigitRunOfDigitsThenSpace(a, tail);
      DigitRunOfDigitsThenSpace(b, tail);
      assert a == (a + tail)[..|a|];
      assert b == (b + tail)[..|b|];
    }
  }
}
