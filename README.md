# Announcement, banner and tags blocks — a Dafny model

This project models the data handling of three Edge Delivery Services block
decorators. Each part is written in Dafny in the form the script itself takes.

- **Announcement list** (`blocks/announcement/announcement.js`):
  - reading the content-fragment folder path an author entered (`extractCfPath`) and decoding it once (`ensureDecodedCfPath`);
  - building a URL slug from a title (`slugify`);
  - turning the GraphQL edges of the persisted query into announcement records (`mapEdgesToItems`), and what a persisted-query payload yields;
  - the JCR JSON fallback: finding the child items, reading each record through its chains of fallback fields, and its own date filter;
  - the date filter and newest-first sort (`filterAndSortAnnouncements`);
  - the `YYYY.MM.DD` date format (`formatDate`);
  - what `decorate` renders, from its configuration.
- **Banner** (`blocks/banner/banner.js`): a `buttonCount` state decides whether the main and sub buttons are shown. The model also covers where the initial state and the state after an attribute mutation come from.
- **Tags** (`blocks/tags/tags.js`): each row of the block becomes one tag link, and the links are rebuilt inside a single `tags-container`.

## Shared modules

- `Wrappers`: `Option` and `Result`.
- `JsText`: the JavaScript string operations the scripts rely on:
  - `trim`, with ECMAScript's white-space set;
  - `startsWith` and `indexOf`;
  - `String(n)` and `padStart(2, '0')`;
  - `parseInt(s, 10)`, with `NaN` as `None`.
- `UriCodec`: `encodeURIComponent` and `decodeURIComponent` over UTF-8. A `URIError` is `None`.
- `Json`: parsed JSON values. Object members keep the order `Object.keys` gives them. The module also covers JavaScript truthiness, `a || b || …` chains, `toString`, and `{ ...obj, name }`.
- `Dates`: local calendar dates, plus the midnight that `new Date(y, m, d)` builds (two-digit years mean 19xx).
- `Browser`: the facilities the model does not interpret, passed in as function values: NFKD normalisation, the text content of parsed HTML, and date parsing.
- `Sorting`: a stable insertion sort by time value (`Sorting.SortStable`). Items with equal time values keep their order, and so do unreadable items among themselves. An unreadable item compares as equal to every item, yet a later dated item can still move ahead of it. For example, the time values 1, unreadable, 2 sort to 2, 1, unreadable.

## Which form each part takes

- **Classes and methods** where the script changes state or loops step by step:
  - `extractCfPath`'s candidate scans;
  - JCR child discovery;
  - `decorate` of the announcement block;
  - the banner's buttons (class `Element` with an inline `display`, class `BannerBlock` with its methods);
  - the tags block's children.
- **Functions and lemmas** where the script is an expression or a method chain. Each method is proved against a function of its inputs, and the properties are proved about those functions.

## Model

| member | source | states |
|---|---|---|
| CfPath.ExtractCfPath | blocks/announcement/announcement.js:14-45 | A missing element gives `''`. Otherwise the result is empty exactly when no normalised candidate contains `/content/`, and a non-empty result starts with `/content/`. The first candidate that starts with `/content/` is returned whole. Failing that, the first candidate containing `/content/` is cut from its first `/content/` up to the first white space or quote. |
| CfPath.PickContentPath | blocks/announcement/announcement.js:35-44 | The `find` scan and the index loop over the normalised candidates establish that same pick rule. |
| CfPath.Candidates | blocks/announcement/announcement.js:17-29 | There are twelve candidates when the element holds a link and five when it does not. The link's `href` attribute comes first and its resolved `href` second, its trimmed text seventh. The element's `data-value`, `data-href` and trimmed text close the list in push order. |
| CfPath.Normalize | blocks/announcement/announcement.js:31-33 | `filter(Boolean)` then `trim`: every truthy candidate's trimmed string is among the values, and every value is the trimmed string of a truthy candidate. There are at most as many values as candidates. Order is stated by `CfPath.NormalizeAppend`. |
| CfPath.NormalizeAppend | blocks/announcement/announcement.js:31-33 | Normalising a concatenation is the concatenation of the normalised parts, so the candidates keep their order. |
| CfPath.NormalizeOne | blocks/announcement/announcement.js:31-33 | A falsy candidate (absent or `''`) is dropped, and a truthy one becomes its trimmed string. |
| CfPath.UpToBreak | blocks/announcement/announcement.js:41 | `split(/[\s"']+/)[0]` is the longest prefix with no white space or quote. It is followed by one of those or by the end. |
| CfPath.IsBreak | blocks/announcement/announcement.js:41 | The characters at which `split(/[\s"']+/)` cuts: white space, `"` and `'`. `CfPath.UpToBreak` states the cut. |
| CfPath.EnsureDecoded | blocks/announcement/announcement.js:120-130 | An empty path stays empty, and a path with no `%HH` escape is returned unchanged. A path whose decoding throws is returned unchanged. Any other path is decoded exactly once. |
| CfPath.EnsureDecodedOnce | blocks/announcement/announcement.js:123-124 | Decoding happens once: `%2541` becomes `%41`, which still holds an escape. |
| UriCodec.DecodeEncode | blocks/announcement/announcement.js:73 | `decodeURIComponent(encodeURIComponent(s)) == s` for every string. |
| UriCodec.DecodePlain | blocks/announcement/announcement.js:123-126 | A string without `%` decodes to itself. |
| UriCodec.EncodeIsEscaped | blocks/announcement/announcement.js:89 | An encoded segment holds only unreserved characters, `%` and hexadecimal digits. |
| UriCodec.EncodeHasNoSlash | blocks/announcement/announcement.js:89 | An encoded segment holds no `/`, so it stays one path segment. |
| UriCodec.Encode | blocks/announcement/announcement.js:89 | `encodeURIComponent` never shortens its input, and a string of unreserved characters is returned unchanged. Its inverse is `UriCodec.DecodeEncode`. |
| UriCodec.Decode | blocks/announcement/announcement.js:73 | A successful `decodeURIComponent` never lengthens its input. `UriCodec.DecodeEncode` and `UriCodec.DecodePlain` state what it decodes to. |
| Slug.SlugifyShape | blocks/announcement/announcement.js:60-70 | An empty title gives `''`. Otherwise the slug has at most 80 characters, all of them `a-z`, `0-9`, U+4E00..U+9FFF or `-`. It never starts with `-`, never holds `--`, and is empty exactly when the folded title holds no slug character. |
| Slug.Slugify | blocks/announcement/announcement.js:60-70 | An empty title gives `''`, and a slug has at most 80 characters. Its alphabet, dashes and emptiness are stated by `Slug.SlugifyShape`. |
| Slug.SlugMayEndInDash | blocks/announcement/announcement.js:68-69 | Truncation follows trimming, so 79 letters, a space and a letter give an 80-character slug that ends in `-`. |
| Slug.CollapseRunsShape | blocks/announcement/announcement.js:67 | Replacing runs with `-` leaves only slug characters and single dashes. It keeps exactly the slug characters there were. |
| Slug.CollapseRuns | blocks/announcement/announcement.js:67 | `replace(/[^a-z0-9\u4e00-\u9fff]+/g, '-')`: each maximal run of other characters becomes one `-`. Its result is stated by `Slug.CollapseRunsShape`. |
| Slug.DropLeadingDashes | blocks/announcement/announcement.js:68 | The result is a suffix that does not start with `-`, and only dashes were removed. |
| Slug.DropTrailingDashes | blocks/announcement/announcement.js:68 | The result is a prefix that does not end with `-`, and only dashes were removed. |
| Slug.DashTrimShape | blocks/announcement/announcement.js:68 | Trimming dashes from a string of slug characters with no double dash keeps those properties. The result does not start with `-`, and it is empty exactly when the input held nothing but dashes. |
| Slug.LowerAscii | blocks/announcement/announcement.js:66 | Each ASCII capital is lowered and every other character is kept. |
| Slug.StripMarks | blocks/announcement/announcement.js:65 | No combining mark U+0300..U+036F is left, and the result is no longer than the input. |
| Slug.StripMarksAppend | blocks/announcement/announcement.js:65 | Removing the marks distributes over concatenation, so every other character is kept, in order. |
| Announcements.MapEdgesToItems | blocks/announcement/announcement.js:72-103 | One record per edge, in edge order. It fails with a `URIError` exactly when the folder path cannot be decoded, and with a `TypeError` exactly when some edge is `null`. |
| Announcements.EdgeItem | blocks/announcement/announcement.js:74-101 | A node with no truthy path field gets a non-empty fallback path that holds a `/`, so its entry never links to `#`. Its fields are stated by `Announcements.EdgeItemFields`. |
| Announcements.EdgeItemFields | blocks/announcement/announcement.js:75-98 | The path is the first truthy one of `_path`, `path`, `jcr:path`, `jcr:name` and `name`. Otherwise it is the decoded base without one trailing `/`, then `/`, then a segment that holds no `/` and decodes to the title's slug, or to `item-<idx+1>` when there is no title. A missing title or date is `''`. |
| Announcements.PathCandidates | blocks/announcement/announcement.js:75-80 | The five path fields, in the order `_path`, `path`, `jcr:path`, `jcr:name`, `name`. `Announcements.EdgeItemFields` states that the first truthy one is the path. |
| Announcements.TitlePart | blocks/announcement/announcement.js:87 | The slug of a truthy `noticeTitle`, else `item-` and the position counted from 1. `Announcements.EdgeItemFields` and `Announcements.FallbackPathShape` state its use. |
| Announcements.FallbackPath | blocks/announcement/announcement.js:86-89 | The base without one trailing `/`, then `/` and the encoded part. `Announcements.FallbackPathShape` states its shape. |
| Announcements.FallbackPathShape | blocks/announcement/announcement.js:86-89 | Whether or not the base is empty, the fallback path is the base without one trailing `/`, then `/`, then the encoded part. |
| Announcements.WithoutTrailingSlash | blocks/announcement/announcement.js:88 | The result is the base itself, or the base minus one final `/`. |
| Announcements.DecodedBase | blocks/announcement/announcement.js:73 | The empty path decodes to `''`, and any other path is run through `decodeURIComponent`. |
| Announcements.HtmlToText | blocks/announcement/announcement.js:48-49 | Empty HTML gives an empty text. Other HTML gives the trimmed text content that the browser facility returns; that part holds by definition. |
| Announcements.FilterAndSortSpec | blocks/announcement/announcement.js:105-117 | The result holds exactly the current records of the input, each as often as it occurs there. Every kept record has a title, and its date is either absent or readable and not after today. The result is sorted newest first, an undated record counting as epoch 0. |
| Announcements.FilterAndSort | blocks/announcement/announcement.js:105-117 | The composition of the filter and the sort; what it keeps and in what order is stated by `Announcements.FilterAndSortSpec`. |
| Announcements.IsCurrent | blocks/announcement/announcement.js:109-115 | The filter test: a title, and no date or a readable date whose local midnight is not after today's. `Announcements.FilterAndSortSpec` states that the result keeps exactly the records passing it. |
| Announcements.DateKey | blocks/announcement/announcement.js:116 | `new Date(item.date \|\| 0)` as a time value: an empty date is the epoch, and an unreadable one is `NaN`. `Announcements.FilterAndSortSpec` uses it as the sort key. |
| Announcements.KeyOf | blocks/announcement/announcement.js:116 | `DateKey` as the function value that the sort takes. |
| Announcements.FilterAndSortStable | blocks/announcement/announcement.js:116 | Current records that share a time value keep their input order. |
| Announcements.Filter | blocks/announcement/announcement.js:109-115 | The result is a sub-multiset of the input that keeps exactly the elements passing the test, with their multiplicities. |
| Sorting.SortPermutes | blocks/announcement/announcement.js:116 | The sort is a permutation of its input. |
| Sorting.SortNewestFirst | blocks/announcement/announcement.js:116 | The `sort` with the newest-first comparator; it is characterised by `Sorting.SortPermutes`, `Sorting.SortOrders` and `Sorting.SortMembers`. |
| Sorting.SortOrders | blocks/announcement/announcement.js:116 | For every input, the items that have a time value are non-increasing by it. When every item has a time value, so does every item of the result. |
| Sorting.SortMembers | blocks/announcement/announcement.js:359 | The sort keeps exactly the items it was given, so "every item is dated" holds before it exactly when it holds after it. |
| Sorting.InsertOrdered | blocks/announcement/announcement.js:116 | Inserting any item into a list whose dated items are newest first keeps them newest first. |
| Sorting.Insert | blocks/announcement/announcement.js:116 | One insertion step: the result is the list with `x` added, as a multiset. `Sorting.InsertOrdered` and `Sorting.InsertWithKey` state where `x` goes. |
| Sorting.After | blocks/announcement/announcement.js:116 | The comparator `new Date(b.date \|\| 0) - new Date(a.date \|\| 0)` is positive: both time values exist and `a` is older. `Sorting.SortOrders` states the resulting order. |
| Sorting.ConsOrdered | blocks/announcement/announcement.js:116 | A dated-newest-first list stays so behind an item at least as new as each of its dated items. |
| Sorting.WithKey | blocks/announcement/announcement.js:116 | The items with a given time value, in their order. It is no longer than the list, and each item in it has that time value. |
| Sorting.InsertWithKey | blocks/announcement/announcement.js:116 | Inserting into a list whose dated items are newest first puts `x` behind every item with the same time value. |
| Sorting.SortStable | blocks/announcement/announcement.js:116 | The sort is stable: for every time value, and for the unreadable dates, the items keep their input order. |
| Announcements.PqAnnouncements | blocks/announcement/announcement.js:158-168 | A `null` payload throws, and reported errors throw. Otherwise a folder path that cannot be decoded throws a `URIError` before the edges are read, and a truthy `edges` that is not an array then throws a `TypeError`. Otherwise the edges are mapped, then filtered and sorted; a failure of the mapping is the result. |
| Announcements.PqDecodesBeforeEdges | blocks/announcement/announcement.js:72-74 | With the folder path `a%zz`, a payload whose `edges` is the string `x` fails with a `URIError`, although its edges alone would throw a `TypeError`. |
| Announcements.PqErrors | blocks/announcement/announcement.js:158-163 | Falsy `errors`, or an empty errors array, report nothing. A non-empty array of non-null errors reports `[PQ] GraphQL errors: ` followed by the messages joined by `'; '`. |
| Announcements.PqEdges | blocks/announcement/announcement.js:166 | Falsy edges are the empty list, and an array is its elements. A truthy value that is not an array throws. |
| Announcements.PqPayloadRule | blocks/announcement/announcement.js:158-168 | A non-empty errors list fails with the joined messages. A payload with neither errors nor edges lists nothing when the folder path decodes, and fails with a `URIError` when it does not. |
| Announcements.ErrorMessages | blocks/announcement/announcement.js:162 | There is one message per error: the string form of its `message`, or `''` when the message is missing or `null`. |
| Announcements.LengthOf | blocks/announcement/announcement.js:158 | `v.length`: the element count of an array, the character count of a string, a `length` member of an object, and `undefined` otherwise. `Announcements.PqErrors` states the check. |
| Announcements.EdgesValue | blocks/announcement/announcement.js:166 | `payload?.data?.cubAnnouncementPaginated?.edges`. `Announcements.PqEdges` states what the edges become. |
| Jcr.DiscoverItems | blocks/announcement/announcement.js:211-267 | The discovery loops compute exactly the items `DiscoveredItems` defines. |
| Jcr.DiscoveredItems | blocks/announcement/announcement.js:211-267 | The items child discovery finds; they are stated case by case by `Jcr.DiscoveredItemsSpec` and `Jcr.DiscoveredChildNodes`, and `Jcr.DiscoverItems` computes them. |
| Jcr.DiscoveredItemsSpec | blocks/announcement/announcement.js:213-248 | An array payload is used as it is. Otherwise the first of `:children`, `children`, `:items`, `items`, `content` and `:content` that supplies an array supplies the items. With no supplying key and no child member, the payload itself is the only item. |
| Jcr.DiscoveredChildNodes | blocks/announcement/announcement.js:250-267 | With no supplying key and at least one child member, the items are the child nodes in key order. Every non-`jcr:`/`sling:`/`rep:` member holding an object becomes an item with `name` set to its key, and nothing else does. |
| Jcr.ScanChildKeys | blocks/announcement/announcement.js:227-248 | The key loop stops at the first child key that supplies items, and returns what it supplies. |
| Jcr.NestedArray | blocks/announcement/announcement.js:236-245 | The nested loop returns the first array-valued member of the object under a key. |
| Jcr.CollectChildNodes | blocks/announcement/announcement.js:250-259 | The `forEach` returns the child nodes in key order. |
| Jcr.FirstSupplied | blocks/announcement/announcement.js:227-248 | The result is `None` exactly when no key supplies items. Otherwise it is what the first supplying key supplies. |
| Jcr.FirstArrayMember | blocks/announcement/announcement.js:237-244 | The result is `None` exactly when no member holds an array. Otherwise it is the elements of the first member that does. |
| Jcr.Supplies | blocks/announcement/announcement.js:229-245 | A child key supplies its array, or the first array-valued member of its object. A falsy or primitive value supplies nothing. `Jcr.FirstSupplied` and `Jcr.DiscoveredItemsSpec` state its use. |
| Jcr.IsSystemKey | blocks/announcement/announcement.js:252 | Keys that start with `jcr:`, `sling:` or `rep:` are skipped. `Jcr.DiscoveredChildNodes` and `Jcr.ChildNodesComplete` state the skip. |
| Jcr.ChildNodes | blocks/announcement/announcement.js:250-259 | The child nodes are no more than the members. Their content is stated by `Jcr.ChildNodesMembers`, `Jcr.ChildNodesComplete` and `Jcr.ChildNodesSound`. |
| Jcr.ChildNodesMembers | blocks/announcement/announcement.js:250-259 | The child nodes are empty exactly when there is no child member. Every child member gives its node, and nothing else does. |
| Jcr.ChildNodesComplete | blocks/announcement/announcement.js:250-259 | Every child member's node, with its name set, is among the child nodes. |
| Jcr.ChildNodesSound | blocks/announcement/announcement.js:250-259 | Every child node is the named node of some child member. |
| Jcr.ChildNode | blocks/announcement/announcement.js:257 | `{ ...value, name: key }` has `name` equal to the key, and every other member unchanged. |
| Jcr.CfData | blocks/announcement/announcement.js:276-289 | The result is `jcr:content.data.master`, else `jcr:content.data`, else `jcr:content`. It is absent when `jcr:content` is falsy. |
| Jcr.TitleCandidates | blocks/announcement/announcement.js:295-304 | The title chain: `noticeTitle`, `title` and `jcr:title` of the fragment data, then `jcr:title`, `title`, `noticeTitle`, `name`, `jcr:name` and the node name of the item. `Jcr.JcrRecord` states that the first truthy one is used. |
| Jcr.DateCandidates | blocks/announcement/announcement.js:306-314 | The date chain: `noticeDate`, `date` and `published` of the fragment data, then `noticeDate`, `date`, `jcr:lastModified`, `jcr:created` and `published` of the item. `Jcr.JcrRecord` states its use. |
| Jcr.ExcerptCandidates | blocks/announcement/announcement.js:316-324 | The excerpt chain: `noticeContent.plaintext`, `noticeContent`, `excerpt` and `description` of the fragment data, then `excerpt`, `noticeContent.plaintext`, `description` and `jcr:description` of the item. `Jcr.JcrRecord` states its use. |
| Jcr.NamedPath | blocks/announcement/announcement.js:329 | The folder path, `/`, and the first truthy of `name`, `jcr:name` and the node name, or `''`. `Jcr.PathOf` and `Jcr.PathAsWritten` end with it. |
| Jcr.JcrRecord | blocks/announcement/announcement.js:271-336 | Title, date and excerpt are each the trimmed string of the first truthy value in their chain. The path is the intended chain `PathOf`, not the chain as written (see "## Left out"). |
| Jcr.PathAsWritten | blocks/announcement/announcement.js:326-329 | The path chain as written: `jcr:path`, else `path`, else the folder path, `/` and the item's name. `_path` is never read. |
| Jcr.PathOf | blocks/announcement/announcement.js:293-329 | The intended chain of the "## Findings" row: `jcr:path`, else `path`, else `_path`, else the folder path, `/` and the item's name. |
| Jcr.PathChainsAgree | blocks/announcement/announcement.js:293-329 | The chain as written and the intended chain give different paths only when `_path` is the only truthy one of the three path keys. |
| Jcr.UnderscorePathIgnored | blocks/announcement/announcement.js:293-329 | Read as written, an item with only `_path` gets a path built from the folder. Read as intended, it gets its own `_path`. |
| Jcr.ObjectItems | blocks/announcement/announcement.js:270 | The result keeps exactly the objects and arrays. |
| Jcr.Records | blocks/announcement/announcement.js:271-337 | One record per item, in order. |
| Jcr.FiltersDifferOnUnreadableDates | blocks/announcement/announcement.js:338-357 | Every record `filterAndSortAnnouncements` keeps, the JCR filter keeps too. The two differ exactly on titled records whose date cannot be read. |
| Jcr.KeptRecordsSpec | blocks/announcement/announcement.js:270-357 | A kept record comes from an object item and passes the JCR filter. Every object item whose record passes is kept. |
| Jcr.JcrKeeps | blocks/announcement/announcement.js:338-357 | The JCR filter: a title, and no date, an unreadable date, or a date whose local midnight is not after today's. `Jcr.FiltersDifferOnUnreadableDates` and `Jcr.KeptRecordsSpec` state it. |
| Jcr.KeptRecords | blocks/announcement/announcement.js:270-358 | The records of the object items that pass the JCR filter, in order. `Jcr.KeptRecordsSpec` states them. |
| Jcr.JcrListMembers | blocks/announcement/announcement.js:270-359 | Every listed record has a title and comes from an object item. A listed record whose date is readable is not after today. Every object item whose record passes the JCR filter is listed. |
| Jcr.JcrListOrder | blocks/announcement/announcement.js:338-359 | The list holds each kept record exactly as often as the filter keeps it. The records with a readable date are newest first, and records that share a time value, or whose dates cannot be read, keep the filter's order. |
| Jcr.JcrList | blocks/announcement/announcement.js:270-359 | The JCR list: the records of the object items, filtered and sorted. Its members are stated by `Jcr.JcrListMembers` and its order by `Jcr.JcrListOrder`. |
| Jcr.JcrOutcomeOf | blocks/announcement/announcement.js:175-365 | The outcome of the JCR branch; `Jcr.JcrAnnouncements` computes it, and its contract states the three cases. |
| Jcr.JcrAnnouncements | blocks/announcement/announcement.js:175-365 | A folder path that cannot be decoded ends in `無法連線至伺服器`. No payload, or a falsy one, ends in `無法讀取公告資料夾`. Any other payload gives the JCR list of its discovered items. |
| Dates.FormatDate | blocks/announcement/announcement.js:369-376 | The result is empty exactly for an empty string, and is `NaN.NaN.NaN` for a date that cannot be read. |
| Dates.FormatDateReadsBack | blocks/announcement/announcement.js:369-376 | A date in years 1000..9999 prints as ten characters, with dots at positions 4 and 7. The three digit groups read back as the year, month and day. |
| Dates.Midnight | blocks/announcement/announcement.js:107-113 | `new Date(y, m, d)` reads years 0..99 as 1900..1999 and keeps month and day, except that February 29 of year 0 rolls over to March 1, 1900, which is not a leap year. |
| JsText.ParseIntDecimal | blocks/announcement/announcement.js:498 | `parseInt(String(n), 10) == n`. |
| JsText.ParseInt | blocks/announcement/announcement.js:498 | The result is `NaN` exactly when no digit follows the white space and the optional sign. A negative result comes only from a leading `-`, and without a `-` the result is not negative. |
| JsText.ParseIntSkipsWhite | blocks/announcement/announcement.js:474 | Leading white space does not change what `parseInt` reads. |
| JsText.ParseIntStopsAtNonDigit | blocks/announcement/announcement.js:498 | A run of digits followed by a non-digit, such as `12px`, reads as the run's decimal value. |
| JsText.ParseIntMinus | blocks/announcement/announcement.js:498 | A `-` in front of a digit negates what `parseInt` reads after it. |
| JsText.Trim | blocks/announcement/announcement.js:333-335 | The result is the stretch after the leading white space that neither starts nor ends with white space, and only white space follows it. |
| Json.FirstTruthy | blocks/announcement/announcement.js:295-329 | An `a \|\| b \|\| …` chain gives the first truthy operand, and `None` exactly when all operands are falsy. |
| Json.SetMember | blocks/announcement/announcement.js:257 | The key is set to the value, and every other key keeps its value. |
| Json.ToStr | blocks/announcement/announcement.js:333-335 | `String(v)` of a string is the string itself, and a truthy value that is not an array has a non-empty string form. |
| NewsBlock.NewsBlock.Decorate | blocks/announcement/announcement.js:441-524 | The heading appears exactly when the title is not empty. An empty folder path shows `請設定公告資料夾路徑` and fetches nothing. Otherwise the list is `ListFor` of the persisted-query list when that query lists announcements, and of the JCR outcome when it fails in any way. |
| NewsBlock.NewsBlock.ShowList | blocks/announcement/announcement.js:486-524 | The list built by the rendering steps is the one `ListFor` describes, and the heading is untouched. |
| NewsBlock.RenderEntries | blocks/announcement/announcement.js:499-522 | The `forEach` renders one entry per displayed item, in order, each as `EntryOf` describes. |
| NewsBlock.FetchAnnouncements | blocks/announcement/announcement.js:472-484 | A persisted query that lists announcements gives that list, and the JCR payload is not read. A missing payload, or a persisted query that fails in any way, gives the JCR outcome of the folder path and the JCR payload. |
| NewsBlock.ListForSpec | blocks/announcement/announcement.js:488-524 | An error shows exactly for a failed outcome, and the notice exactly for an empty list. Otherwise there is one entry per leading item, in order, no more than `parseInt(maxItems)` asks for and none when it is `NaN`. |
| NewsBlock.ListFor | blocks/announcement/announcement.js:486-524 | What the list shows for an outcome; its cases are stated by `NewsBlock.ListForSpec`, and `NewsBlock.NewsBlock.ShowList` builds it. |
| NewsBlock.SliceEnd | blocks/announcement/announcement.js:498 | `slice(0, end)` stops at `end` capped by the length. A `NaN` end counts as 0, and a negative end counts from the back. |
| NewsBlock.DisplayItems | blocks/announcement/announcement.js:498 | The displayed items are a prefix of the announcements. |
| NewsBlock.DisplayCount | blocks/announcement/announcement.js:498 | A decimal `maxItems` shows that many items, or all of them when there are fewer. |
| NewsBlock.DefaultDisplayCount | blocks/announcement/announcement.js:441-446 | The default `maxItems` of `'10'` shows at most ten items. |
| NewsBlock.TitleOf | blocks/announcement/announcement.js:441-446 | The `title` default `''`, used only when the member is missing. `NewsBlock.NewsBlock.Decorate` states the heading rule. |
| NewsBlock.CfPathOf | blocks/announcement/announcement.js:441-446 | The `cfPath` default `''`. `NewsBlock.NewsBlock.Decorate` states the missing-path notice. |
| NewsBlock.MaxItemsOf | blocks/announcement/announcement.js:441-446 | The `maxItems` default `'10'`. `NewsBlock.DefaultDisplayCount` states that it shows at most ten items. |
| NewsBlock.ShowDateOf | blocks/announcement/announcement.js:441-446 | The `showDate` default `'true'`. `NewsBlock.ListForSpec` and `NewsBlock.EntryOf` state when a date shows. |
| NewsBlock.EntryOf | blocks/announcement/announcement.js:499-522 | `href` is the path, or `#` when the path is empty. A formatted date appears exactly when `showDate === 'true'` and the date is not empty. The excerpt appears exactly when it is not empty. |
| Banner.SetVisibility | blocks/banner/banner.js:20-23 | A missing element changes nothing. A present one gets `''` or `'none'`. Only the inline `display` may change, so a select's `value` keeps its value. |
| Banner.DisplayFor | blocks/banner/banner.js:22 | The display is `''` exactly when the element is visible. |
| Banner.ByClassOrAttribute | blocks/banner/banner.js:26-27 | The button found carries the class or the attribute. A button with the class wins whenever one exists, and nothing is found exactly when no element carries either. |
| Banner.FirstMatching | blocks/banner/banner.js:26-27 | `querySelector` finds the first matching element in document order. |
| Banner.SubNeedsMain | blocks/banner/banner.js:29-43 | The sub button never shows without the main one. `none` and unknown states hide both. |
| Banner.MainShown | blocks/banner/banner.js:29-43 | The main button shows for `main-only` and `main-and-sub`. `Banner.SubNeedsMain` and `Banner.BannerBlock.ApplyButtonState` state it. |
| Banner.SubShown | blocks/banner/banner.js:29-43 | The sub button shows only for `main-and-sub`. `Banner.SubNeedsMain` and `Banner.BannerBlock.ApplyButtonState` state it. |
| Banner.BannerBlock.ApplyButtonState | blocks/banner/banner.js:25-44 | `main-only` shows main and hides sub, `main-and-sub` shows both, and any other state hides both. The new displays do not depend on the old ones. Where one element is both buttons, the sub button's write wins. Only the buttons' `display` may change. |
| Banner.InitialState | blocks/banner/banner.js:52 | The state is the select's value if it is non-empty, else the attribute if it is non-empty, else `none`. |
| Banner.MutationState | blocks/banner/banner.js:66 | The state is the attribute if it is non-empty, else the select's value, else `none`. |
| Banner.SelectValueOf | blocks/banner/banner.js:52 | `select && select.value`, empty when there is no select. `Banner.BannerBlock.Init` and `Banner.BannerBlock.OnMutations` state its use. |
| Banner.InitialAndMutationDiffer | blocks/banner/banner.js:52-66 | The two priority rules disagree exactly when both sources hold a value and the values differ. |
| Banner.BannerBlock.Init | blocks/banner/banner.js:46-53 | Initialisation applies the initial state. Only the buttons' `display` may change. |
| Banner.BannerBlock.OnSelectChange | blocks/banner/banner.js:55-59 | A change event applies the select's value. Only the buttons' `display` may change. |
| Banner.BannerBlock.OnMutations | blocks/banner/banner.js:63-69 | The displays change only when a `data-button-count` attribute record is present, and then show the mutation state. Several such records leave the result of one. Only the buttons' `display` may change. |
| Banner.ReappliesState | blocks/banner/banner.js:65 | An `attributes` record for `data-button-count`. `Banner.BannerBlock.OnMutations` states that only such records change the displays. |
| Tags.TagOf | blocks/tags/tags.js:6-10 | A row with a link gives the link's text and its `href` property: the attribute resolved against the page URL, or `''` when the link has no `href` attribute. A row without a link gives its own text and `#`. |
| Tags.HrefOf | blocks/tags/tags.js:8 | `link.href` is `''` for a link without an `href` attribute, and the resolved attribute otherwise. |
| Tags.TagsOf | blocks/tags/tags.js:5-11 | One tag per child, in order. |
| Tags.FirstLink | blocks/tags/tags.js:6 | A container's first link is its first tag. |
| Tags.TagsBlock.Decorate | blocks/tags/tags.js:3-30 | The block ends with a single `tags-container` child holding one link per former child, in order, each built from that child's tag. |
| Tags.DecorateAgain | blocks/tags/tags.js:5-29 | Decorating an already decorated block leaves one tag: the first, with its `href` resolved again. For a first row without a link that is the resolution of `#`, not `#` itself, and for a first link without an `href` attribute it is the resolution of `''`. With no rows it is an empty tag with `#`. |

## Left out

- Fetching, `res.text()`/`res.json()`/`JSON.parse`, the endpoint retry loops and all `console` logging. The model starts from the parsed payload: `pq` is the persisted-query payload (`None` when the request or the parse threw), and `jcr` is the payload of the first JCR endpoint that answered. An empty persisted-query body parses to `{}`; the caller passes that as `JObj([])`.
- The `limit` query parameter and the persisted-query URL construction only shape the request.
- The configuration scan of `decorate` (blocks/announcement/announcement.js:380-439) walks the DOM. The model starts from the resulting `data` object (`NewsBlock.Config`).
- `ENABLE_JCR_FALLBACK` is the constant `true`, so only the fallback branch is modelled.
- Creating DOM elements, class names and `innerHTML` strings. `NewsBlock.ListView` and `Tags.Child` stand for the rendered content.
- NFKD normalisation, the text content of parsed HTML (including the regex fallback of `htmlToText`), and date parsing and time zones are facilities of the browser. They are passed in as functions (`Browser.Host`), and "today" is a parameter.
- `toLowerCase` is modelled on ASCII letters only. Other letters pass through unchanged; only ASCII letters can reach a slug either way.
- JSON numbers are integers. Fractions and exponents are not modelled, so `String(n)` of a fraction is not either.
- JsText.Decimal: `String(n)` is plain decimal digits for every integer. JavaScript switches to exponent notation at magnitude 1e21 and loses precision beyond 2^53; neither is modelled.
- Json.ToStr: a JSON object with its own member named `toString` makes `title.toString()` and template interpolation throw. The model prints `[object Object]` instead. In the script, the JCR branch catches that error and shows `無法連線至伺服器`, and in the persisted-query branch `slugify` throws and the block falls back to JCR.
- Jcr.JcrRecord: the record takes its path from the intended chain `Jcr.PathOf`, which reads `_path` third. The script as written reads `path` twice (`Jcr.PathAsWritten`). They differ only for an item whose one truthy path key is `_path` (`Jcr.PathChainsAgree`). That item gets its own `_path` in the model; the script gives it the folder path, `/` and its name (`Jcr.UnderscorePathIgnored`). The record also keeps the string form of the chosen path, where the script keeps the raw value and renders `announcement.path || '#'`: a truthy path whose string form is empty, such as `[""]` or `[]` under `jcr:path`, links to `''` in the script and to `#` in the model.
- Tags.TagOf: resolving an `href` attribute against the page URL is the browser's URL parser. It is a parameter (`resolve`), and nothing is assumed about it; a link without the attribute reads as `''` without it.
- Announcements.EdgeItemFields: the record keeps the string form of `path`, `title` and `date`. The script keeps the raw JSON value and converts it only when rendering. The two differ for a truthy array whose string form is empty. They also differ for a `date` of `true`: `new Date(true)` is time value 1, so the script keeps the item and prints `1970.01.01`, while the model parses the string `"true"`.
- Announcements.DateKey: a `date` that is a JSON number is parsed from its string form, while the script passes the number to `new Date` directly.
- Sorting.SortOrders: with an unreadable date the JavaScript comparator returns `NaN`, and the engine's resulting order is implementation-defined. The model states that the dated items are newest first among themselves, and `Sorting.SortStable` that items sharing a time value, or unreadable ones, keep their order. Where an unreadable item lands among dated ones is not stated.
- Dates.Midnight: the calendar date is taken to be a valid one, as `getFullYear`, `getMonth` and `getDate` return it; the month and day overflow that `new Date` applies to other out-of-range values is not modelled.
- Dates.NotAfter compares calendar dates, not the time values of local midnights. Dates beyond the range of `Date` (which are `Invalid Date`) are not modelled.
- Banner event plumbing (`MutationObserver`, `addEventListener`, `DOMContentLoaded`, `window.BannerControls`) and `initAll`. The model keeps only the state each event applies.
- api/graphql-proxy.js, blocks/teaser/teaser.js and blocks/datetime/datetime.js are not part of this model.

## Findings

| source | as written | input that shows it | evidently intended | confidence | as-written member | corrected member |
|---|---|---|---|---|---|---|
| blocks/announcement/announcement.js:293-329 | `const undscorePath = 'path'` makes the third candidate of the JCR path chain read `item.path` again. | An item `{"_path": "/content/a"}` in folder `/content/f` gets the path `/content/f/`. | `'_path'`, the same key that `PATH_PROP` names for the persisted-query branch; the item's path would be `/content/a`. | medium; not executed | Jcr.PathAsWritten, Jcr.UnderscorePathIgnored | Jcr.PathOf |
