# RSS 2.0 feed validator, modelled in Dafny

`validate_rss.py` checks RSS feeds for RSS 2.0 compliance. Its target is a
feed file, a directory of feeds, or a URL. A base URL is probed at four
conventional feed paths. Each source is read or fetched and parsed. It then
goes through a fixed sequence of rules:

1. parse failure (bozo);
2. version;
3. required channel elements;
4. an exhaustive item scan;
5. informational lines.

Each rule prints ERROR, WARNING, INFO or PASS lines and yields a pass/fail
verdict. The process exits with status 0 only when every source passed.

The model keeps the program's structure:

| module | file | what it holds |
|---|---|---|
| `Text` | `text.dfy` | the string operations the program uses (`startswith`, `endswith`, `rstrip('/')`, `join`), and decimal rendering of item indices |
| `Feed` | `feed.dfy` | the parsed feed (channel, items, bozo flag, version), diagnostics as (severity, message) values, and the exact printed text of each message |
| `Rules` | `rules.dfy` | the rules as functions: `Validate` gives the report of a parsed feed, and `ValidateSource` also covers a source that could not be read or fetched; lemmas about the channel check and the item scan |
| `Properties` | `properties.dfy` | what the rules guarantee about a whole report: the verdict, the order of diagnostics, and which facts can fail a feed |
| `Validator` | `validator.dfy` | `validate_rss` as the program runs it: loops that append to `missing_elements`, `errors` and `warnings`, with early returns. Each method is proved to return exactly the report `Rules` specifies |
| `Sorting` | `sorting.dfy` | Python's `sorted` on strings, and lists without duplicates |
| `Sources` | `sources.dfy` | `find_rss_files`, and the probing of a base URL at its common feed paths |
| `Runner` | `runner.dfy` | `main`: resolving the target, validating in sorted order, folding `all_valid`, and the exit status |

The file system, the network and the feed parser are inputs to the model:

- whether the target is a file or a directory;
- the entries below a directory;
- which probed URLs answer with status 200;
- for each source, either the parsed feed or the error that stopped reading or fetching it.

The parser's output is an abstract record. For each field it records whether
the parser set it; this is the `hasattr` test the code uses.

Three behaviours of the code are worth stating plainly, since the model follows them:

- **Empty version.** Only an absent `version` attribute gives the "No RSS version specified" ERROR that stops validation (line 56). A present but empty version does not start with `rss20`, so it gets a WARNING and validation continues (line 60).
- **Item ERRORs.** A feed fails when any item lacks both title and description (lines 83-84, 104-105), even when it is well formed, RSS 2.0 and its channel is complete.
- **Field tests.** Item fields are tested for presence only (`hasattr`, lines 83-95). Required channel elements are tested for presence and non-emptiness (line 67).

## Model

| member | source | states |
|---|---|---|
| Validator.ValidateParsed | validate_rss.py:47-115 | the diagnostics and verdict the checks print and return for a parsed feed are exactly `Rules.Validate(feed)`, so every property proved of `Validate` holds of them |
| Validator.ValidateRss | validate_rss.py:23-115 | one source: a read or fetch failure gives its single ERROR and false; otherwise the parsed feed's report |
| Validator.CollectMissingChannel | validate_rss.py:64-68 | the channel loop's `missing_elements` is `MissingChannel(ch)`, the required names whose element is absent or empty, in check order |
| Validator.ScanItems | validate_rss.py:78-96 | the item loop's `errors` and `warnings` are `ItemErrors` and `ItemWarnings` of the entries |
| Properties.VerdictIsAbsenceOfErrors | validate_rss.py:51-115 | the verdict is false exactly when an ERROR was emitted; a passing report ends with the single PASS line and has no other; a failing one has no PASS line |
| Properties.EarlyFailureVerdict | validate_rss.py:51-72 | a feed stopped before the item stage has an ERROR and no PASS line in its report |
| Properties.ItemsVerdict | validate_rss.py:74-115 | a report made of the version notice, the item section and, when the scan found no ERROR, the INFO lines and PASS, holds an ERROR iff the scan found one; it ends with its only PASS line when the scan found none, and has no PASS line otherwise |
| Properties.HasSeverityConcat | validate_rss.py:51-115 | proof helper for ItemsVerdict: a severity occurs in a concatenation of reports iff it occurs in one of the parts |
| Properties.BozoStopsEverything | validate_rss.py:51-53 | a bozo feed fails with exactly one ERROR, the parser's exception, and nothing else |
| Properties.VersionRules | validate_rss.py:56-61 | an absent version fails with the single "No RSS version specified" ERROR; a present version not starting with `rss20` (the empty string included) adds one WARNING in front of the report an `rss20` feed would get, with the same verdict |
| Properties.ChannelRule | validate_rss.py:64-72 | when a required channel element is absent or empty, the report is the version notice and one ERROR listing exactly the missing names, and the verdict is false; when none is missing there is no channel ERROR |
| Rules.MissingChannelParts | validate_rss.py:64-68 | the channel loop yields "title", "link" and "description" in that order, each exactly when its element is absent or empty |
| Rules.MissingChannelExact | validate_rss.py:64-68 | a name is listed iff it is required and its element is absent or empty; the list follows the fixed order title, link, description; it is empty iff all three are set and non-empty |
| Properties.EarlyFailureShape | validate_rss.py:51-72 | a feed stopped before the item stage fails, and its report ends with an ERROR preceded only by WARNINGs |
| Properties.ReachesItemsShape | validate_rss.py:74-115 | past the channel stage the report is the version notice, the item section and, when no item ERROR exists, the INFO lines and PASS; it passes iff there is no item ERROR |
| Validator.CheckItem | validate_rss.py:83-96 | the checks on one item append exactly `ErrorsOf(i, entry)` to `errors` and `WarningsOf(i, entry)` to `warnings` |
| Rules.ItemErrorsExact | validate_rss.py:81-84 | the ERROR list has one entry per item that lacks both title and description, naming that item, in ascending index order, and no other entry |
| Rules.ItemErrorsEmptyIff | validate_rss.py:81-84 | no item ERROR exists iff every item has a title or a description |
| Rules.ItemErrorsKinds | validate_rss.py:81-84 | every entry of the error scan is an item ERROR about a missing title and description |
| Rules.ItemWarningsKinds | validate_rss.py:86-96 | every entry of the warning scan is an item WARNING about guid, pubDate or link |
| Rules.WarningsOfExact | validate_rss.py:86-96 | one item's WARNINGs name that item, each names a field the item lacks, they come guid then pubDate then link, and every field it lacks is named |
| Rules.ItemWarningsSound | validate_rss.py:86-96 | every item WARNING names an existing item that lacks the field it names |
| Rules.ItemWarningsOrdered | validate_rss.py:81-96 | item WARNINGs are in ascending item order, and guid before pubDate before link within an item |
| Rules.ItemWarningsComplete | validate_rss.py:86-96 | every missing guid, pubDate and link of every item has its WARNING |
| Rules.ItemWarningsCount | validate_rss.py:86-96 | the number of item WARNINGs equals the total number of missing optional fields over all items |
| Rules.MissingOptionalTotalSnoc | validate_rss.py:81-96 | appending an item adds its own number of missing optional fields to the total |
| Properties.ItemSectionSeverities | validate_rss.py:75-105 | the item section holds an ERROR iff the error scan found one, and never a PASS line |
| Properties.ItemSectionShape | validate_rss.py:75-105 | the item section is all item ERRORs followed only by WARNINGs; it holds nothing but ERRORs and WARNINGs, and no channel ERROR |
| Properties.ItemErrorsBeforeWarnings | validate_rss.py:98-102 | in the report of a feed past the channel stage, no item ERROR comes after an item WARNING |
| Properties.SectionOrder | validate_rss.py:98-102 | in a report made of a version notice, the item section and INFO/PASS lines, no ERROR follows an item WARNING |
| Properties.SectionCut | validate_rss.py:98-102 | cut after the item ERRORs, such a report has no item WARNING before the cut and no ERROR after it |
| Properties.SplitOrder | validate_rss.py:98-102 | a list cut so that no item WARNING precedes the cut and no ERROR follows it has every item ERROR before every item WARNING |
| Properties.ItemVerdict | validate_rss.py:78-105 | past the channel stage, the feed passes iff no item lacks both title and description |
| Properties.NoItemsOnlyWarns | validate_rss.py:75-76 | an empty item list gives exactly one "No items found" WARNING and, past the channel stage, the feed passes |
| Properties.PassingTail | validate_rss.py:107-115 | a passing report ends with its INFO lines and then the PASS line |
| Properties.InfoLinesShape | validate_rss.py:108-112 | the INFO lines are all INFO: first the item count, equal to the number of items, then a language line and a generator line exactly when the parser set those fields |
| Properties.PassedIff | validate_rss.py:51-115 | a feed passes iff it gets past the bozo, version and channel checks and no item lacks both title and description |
| Properties.WarningsDoNotDecide | validate_rss.py:51-115 | two feeds that agree on bozo, version, required channel elements and which items lack both title and description get the same verdict; guid, pubDate, link, language and generator never change it |
| Properties.AcquisitionFailureStops | validate_rss.py:27-45 | a source that could not be read or fetched fails with one ERROR: "Cannot fetch URL" for a URL error, "Failed to read from URL" for any other URL failure, "Cannot read file" for a local path |
| Properties.TitleOnlyItemScenario | validate_rss.py:81-114 | a complete channel, version `rss20` and one item with only a title: WARNINGs for guid, pubDate and link of item 0, INFO "Found 1 items", PASS, verdict true |
| Properties.EmptyDescriptionScenario | validate_rss.py:64-72 | an empty channel description fails with one ERROR naming only `description` |
| Properties.ChannelMessageText | validate_rss.py:71 | the channel ERROR's text is "Missing required channel elements: " followed by the names joined with ", ", for one, two and three names (every length `MissingChannelParts` allows) |
| Properties.SliceOfConcat | validate_rss.py:98-102 | proof helper for SectionCut: cutting a concatenation inside its middle part splits that part |
| Feed.Render | validate_rss.py:52-114 | every printed diagnostic starts with two spaces, its severity tag and a colon |
| Feed.ItemTextIdentifiesIndex | validate_rss.py:84-96 | two item messages of the same kind print the same text only when they name the same item |
| Feed.DigitRunOfDigitsThenSpace | validate_rss.py:84-96 | in "digits, then a space", the leading run of digits is exactly the digits |
| Feed.ItemTextDeterminesNumber | validate_rss.py:84-96 | "Item n ..." texts that differ only in their digit run have the same number |
| Text.NatToString | validate_rss.py:84-108 | an item index or count prints as at least one decimal digit, with no leading zero |
| Text.NatToStringRoundTrip | validate_rss.py:84-108 | the printed number reads back as the number |
| Text.NatToStringInjective | validate_rss.py:84-108 | distinct numbers print differently |
| Text.RStripSlash | validate_rss.py:149 | `rstrip('/')` returns a prefix of its input that does not end in '/', and removes only slashes |
| Text.RStripSlashIdempotent | validate_rss.py:149 | stripping again changes nothing |
| Sources.FindRssFiles | validate_rss.py:118-135 | `[path]` for an http(s) URL or an existing file; for a directory, a duplicate-free list holding exactly the entries below it whose file name is index.xml, rss.xml, feed.xml or atom.xml; otherwise empty |
| Sources.GlobFeedFiles | validate_rss.py:129-133 | extending `rss_files` pattern by pattern yields `GlobAll` over the four feed file names |
| Sources.Deduplicate | validate_rss.py:135 | `list(set(...))` has no duplicates, holds the same paths, and has as many entries as there are distinct paths |
| Sources.GlobMatchesExact | validate_rss.py:133 | one recursive pattern matches exactly the entries with that basename, joined onto the directory |
| Sources.GlobAllExact | validate_rss.py:131-133 | the patterns together match exactly the entries whose basename is one of the names |
| Sources.GlobAllFeedNames | validate_rss.py:131-133 | the four patterns' matches, as a set, are the directory's feed files |
| Sources.BasenameShape | validate_rss.py:131-133 | a basename holds no '/', ends its path, and is preceded there by '/' unless it is the whole path |
| Sources.BasenameOfName | validate_rss.py:131-133 | a name without '/' is its own basename |
| Sources.BasenameAfterSlash | validate_rss.py:131-133 | the basename of `sub/name` is `name` |
| Sources.JoinPathInjective | validate_rss.py:133 | joining distinct relative paths onto one directory gives distinct paths |
| Sources.DirectoryMatchesExact | validate_rss.py:129-135 | an entry below the directory is reported iff its file name is a feed file name |
| Sources.FeedFileFoundAtAnyDepth | validate_rss.py:131-133 | the `**/` patterns report a feed file name both directly in the directory and in any sub-directory, and report no other name |
| Rules.UrlTest | validate_rss.py:28 | the URL test is "starts with http:// or https://" |
| Sources.ProbeTest | validate_rss.py:146-148 | a target is probed iff it starts with http:// or https:// and ends in none of .xml, .rss, .atom |
| Sources.ProbeCandidatesProperties | validate_rss.py:148-154 | the candidates are four distinct URLs; each is the stripped base, a slash and a name ending in `.xml`; none of them would be probed again |
| Sources.CandidateShape | validate_rss.py:148-154 | a common path appended to the base starts with the base and a slash, ends in `.xml`, and needs no probing |
| Sources.EndsWithAppended | validate_rss.py:148 | proof helper for CandidateShape: a suffix of `p` is a suffix of `a + p` |
| Sources.ProbeCandidatesIgnoreTrailingSlash | validate_rss.py:149 | a trailing slash on the base URL does not change the candidates |
| Sources.ProbeCommonPaths | validate_rss.py:149-158 | the probe loop keeps exactly the answering candidates, in probe order |
| Sources.RespondingExact | validate_rss.py:153-158 | a candidate is kept iff it answered; no more are kept than were tried; distinct candidates give distinct results |
| Sources.OnlyFeedXmlAnswers | validate_rss.py:153-158 | when only `<base>/feed.xml` answers, it is the single result |
| Sources.ExampleComIsProbed | validate_rss.py:146-149 | `https://example.com` is an http(s) URL without a feed suffix, and its stripped base is itself |
| Sources.ProbeScenario | validate_rss.py:146-158 | probing `https://example.com` when only its `/feed.xml` answers finds exactly `https://example.com/feed.xml` |
| Sorting.Sort | validate_rss.py:179 | `sorted` returns its input rearranged, in non-decreasing string order |
| Sorting.Insert | validate_rss.py:179 | inserting into a sorted list keeps it sorted and adds exactly that string |
| Sorting.SortedUnique | validate_rss.py:179 | two sorted rearrangements of the same strings are equal |
| Sorting.SortedDistinctUnique | validate_rss.py:135-179 | the sorted list of a duplicate-free source list is fixed by the set of sources, whatever order `list(set(...))` produced |
| Sorting.NoDuplicatesPermutation | validate_rss.py:135-179 | sorting a duplicate-free list leaves it duplicate-free |
| Sorting.SameElementsPermutation | validate_rss.py:135-179 | duplicate-free lists with the same elements are rearrangements of each other |
| Sorting.NoDuplicatesCount | validate_rss.py:135 | in a duplicate-free list every element occurs exactly once |
| Sorting.RepeatCount | validate_rss.py:135 | proof helper for NoDuplicatesPermutation: an element at two positions occurs at least twice |
| Sorting.TailPermutation | validate_rss.py:179 | proof helper for SortedUnique: dropping the same first element from two rearrangements leaves rearrangements |
| Sorting.SortedSameHead | validate_rss.py:179 | two sorted rearrangements of the same strings start alike |
| Sorting.LexTotal | validate_rss.py:179 | any two strings are ordered one way or the other |
| Sorting.LexTransitive | validate_rss.py:179 | string order is transitive |
| Sorting.LexAntisymmetric | validate_rss.py:179 | strings ordered both ways are equal |
| Sorting.LexReflexive | validate_rss.py:179 | every string is ordered before or equal to itself |
| Sorting.InsertFront | validate_rss.py:179 | a string not above the head of a sorted list can go in front |
| Sorting.InsertBehind | validate_rss.py:179 | a sorted tail behind a head not above any of its strings stays sorted |
| Runner.Resolve | validate_rss.py:146-173 | the sources to validate are duplicate-free and are exactly `Targets`: the answering candidates of a base URL; the URL itself when it has a feed suffix; the file; or the directory's feed files |
| Runner.ProbedTargets | validate_rss.py:146-158 | the probe results of a base URL are duplicate-free and are exactly its targets |
| Runner.ValidateAll | validate_rss.py:178-181 | sources are validated in the given order; each result is `ValidateSource` of its source; `all_valid` is true iff every source passed |
| Runner.Run | validate_rss.py:138-190 | usage iff no target argument; "no feeds at common paths" iff a base URL has no answering candidate; "no RSS files found" iff a local target holds none; otherwise every target is validated exactly once, in sorted order, each getting its `validate_rss` report, and `all_valid` is the AND of their verdicts; the exit status is 0 exactly when validation ran and no report holds an ERROR |
| Runner.SourcePassedIffNoError | validate_rss.py:23-115 | a source passes iff its report holds no ERROR, whether it failed to load or was parsed |
| Runner.ExitZeroIffNoErrors | validate_rss.py:178-190 | after validation the exit status is 0 iff no source's report holds an ERROR |
| Runner.ExitStatus | validate_rss.py:139-190 | the exit status is 0 or 1; given that `all_valid` is the conjunction of the verdicts, it is 0 exactly when validation ran and every source's report passed, and 1 for the usage error and both "nothing found" exits |
| Runner.SourcesOf | validate_rss.py:178-181 | the list of validated sources, one per result, in result order |

## Left out

- `feedparser.parse` (line 48) is not modelled. Its output is an input record; which fields it sets for a given document is outside the model.
- Reading files and fetching URLs (lines 28-45, 156-160) are inputs. For reading and fetching, an `Acquisition` is either the parsed feed or the error. For probing, an oracle says which URLs answered with status 200; it also covers exceptions and other status codes.
- `os.path.isfile`, `os.path.isdir` and the directory walk behind `glob.glob` (lines 126-133) are inputs. The tree is a list of relative entry paths. Glob's rules for hidden files and symbolic links are not modelled. The directory path is taken literally: line 133 builds the glob pattern from it, so a `*`, `?` or `[` in a directory name acts as a wildcard there (an existing directory `feeds[1]` holding `index.xml` yields no match in the program), while the model joins the directory path onto each entry as written.
- Deduplicate: `list(set(...))` returns the paths in an order Python does not specify. The model only promises the set, no duplicates and the count. `Sorting.SortedDistinctUnique` shows that this order never reaches the output.
- Some printed lines are not represented by diagnostics: the per-source header "Validating RSS 2.0 compliance for: ...", "Found N RSS file(s) to validate", the separator, the SUCCESS/FAILURE summary and the usage text. The exits are represented by `Runner.Outcome` and `Runner.ExitStatus`.
- Exception texts are opaque strings: the bozo exception, and the URL, read and file errors.
- UTF-8 decoding of the fetched content (line 30) is not modelled.
- Strings are sequences of characters. `sorted` compares them character by character, which matches Python's code point order.
