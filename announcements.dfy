/** Announcement records of blocks/announcement: mapping GraphQL edges to
    records, the date filter with the newest-first sort, and the handling of a
    persisted-query payload. */
module Announcements {
  import opened Wrappers
  import opened Json
  import JsText
  import UriCodec
  import Dates
  import Browser
  import Slug
  import Sorting

  /** What the rendering reads of an announcement. */
  datatype Announcement = Announcement(path: string, title: string, date: string, excerpt: string)

  /** Why the persisted-query branch fails: the payload's GraphQL errors, a
      `TypeError` from touching a value of the wrong shape, or the `URIError`
      of `decodeURIComponent`. */
  datatype PqError = GraphQLErrors(message: string) | TypeError | UriError

  /** `htmlToText(html)` */
  function HtmlToText(host: Browser.Host, html: string): (r: string)
    ensures html == [] ==> r == []
  {
    if html == [] then [] else JsText.Trim(host.htmlTextContent(html))
  }

  /** `node[PATH_PROP]`, `node.path`, `node['jcr:path']`, `node['jcr:name']`, `node.name` */
  function PathCandidates(node: Option<Json>): (r: seq<Option<Json>>)
    ensures |r| == 5
  {
    [GetOpt(node, "_path"), GetOpt(node, "path"), GetOpt(node, "jcr:path"),
     GetOpt(node, "jcr:name"), GetOpt(node, "name")]
  }

  /** The last path segment of a fallback path before encoding: the slug of the
      title, or `item-<idx + 1>` for an untitled node. */
  function TitlePart(host: Browser.Host, node: Option<Json>, idx: nat): string {
    var title := GetOpt(node, "noticeTitle");
    if Truthy(title) then Slug.Slugify(host, ToStr(title.value))
    else "item-" + JsText.Decimal(idx + 1)
  }

  /** The base with one trailing `/` removed. */
  function WithoutTrailingSlash(base: string): (r: string)
    ensures r == base || r + "/" == base
  {
    if |base| > 0 && base[|base| - 1] == '/' then base[..|base| - 1] else base
  }

  function FallbackPath(base: string, part: string): string {
    var safeBase := WithoutTrailingSlash(base);
    if safeBase != [] then safeBase + "/" + UriCodec.Encode(part) else "/" + UriCodec.Encode(part)
  }

  /** The record built from one edge's `node` at position `idx`. */
  function EdgeItem(host: Browser.Host, node: Option<Json>, idx: nat, decodedBase: string): (r: Announcement)
    ensures FirstTruthy(PathCandidates(node)).None? ==> r.path != [] && '/' in r.path
  {
    var path := match FirstTruthy(PathCandidates(node))
      case Some(v) => ToStr(v)
      case None => FallbackPath(decodedBase, TitlePart(host, node, idx));
    Announcement(
      path,
      StrOr([GetOpt(node, "noticeTitle")]),
      StrOr([GetOpt(node, "noticeDate")]),
      HtmlToText(host, StrOr([GetOpt(GetOpt(node, "noticeContent"), "html")])))
  }

  /** `cfPath ? decodeURIComponent(cfPath) : ''`, with `None` when it throws. */
  function DecodedBase(cfPath: string): (r: Option<string>)
    ensures cfPath == [] ==> r == Some([])
    ensures cfPath != [] ==> r == UriCodec.Decode(cfPath)
  {
    if cfPath == [] then Some([]) else UriCodec.Decode(cfPath)
  }

  /** `mapEdgesToItems(edges, cfPath)`: one record per edge, in edge order. It
      throws when the path cannot be decoded and when an edge is `null` (the
      `{ node }` destructuring). */
  function MapEdgesToItems(host: Browser.Host, edges: seq<Json>, cfPath: string): (r: Result<seq<Announcement>, PqError>)
    ensures r.Ok? <==> DecodedBase(cfPath).Some? && forall i :: 0 <= i < |edges| ==> edges[i] != JNull
    ensures DecodedBase(cfPath).None? ==> r == Err(UriError)
    ensures r.Err? && DecodedBase(cfPath).Some? ==> r == Err(TypeError)
    ensures r.Ok? ==> |r.value| == |edges|
    ensures r.Ok? ==> forall i :: 0 <= i < |edges| ==>
      r.value[i] == EdgeItem(host, Get(edges[i], "node"), i, DecodedBase(cfPath).value)
  {
    match DecodedBase(cfPath)
    case None => Err(UriError)
    case Some(base) =>
      if exists i :: 0 <= i < |edges| && edges[i] == JNull then Err(TypeError)
      else Ok(seq(|edges|, i requires 0 <= i < |edges| => EdgeItem(host, Get(edges[i], "node"), i, base)))
  }

  /** A fallback path is the base without one trailing `/`, then `/`, then
      the encoded part. */
  lemma FallbackPathShape(base: string, part: string)
    ensures FallbackPath(base, part) == WithoutTrailingSlash(base) + "/" + UriCodec.Encode(part)
  {
    var safeBase := WithoutTrailingSlash(base);
    if safeBase == [] {
      assert safeBase + "/" == "/";
    }
  }

  /** The path of a record: the first truthy one of `_path`, `path`,
      `jcr:path`, `jcr:name` and `name`; otherwise the decoded base without one
      trailing `/`, then `/`, then an encoded segment that holds no `/` and
      decodes back to the slug of the title or to `item-<idx + 1>`. A missing
      title or date is the empty string. */
  lemma EdgeItemFields(host: Browser.Host, node: Option<Json>, idx: nat, base: string)
    ensures FirstTruthy(PathCandidates(node)).Some? ==>
      EdgeItem(host, node, idx, base).path == ToStr(FirstTruthy(PathCandidates(node)).value)
    ensures FirstTruthy(PathCandidates(node)).None? ==>
      var seg := UriCodec.Encode(TitlePart(host, node, idx));
      && EdgeItem(host, node, idx, base).path == WithoutTrailingSlash(base) + "/" + seg
      && (forall i :: 0 <= i < |seg| ==> seg[i] != '/')
      && UriCodec.Decode(seg) == Some(TitlePart(host, node, idx))
    ensures !Truthy(GetOpt(node, "noticeTitle")) ==> EdgeItem(host, node, idx, base).title == []
    ensures !Truthy(GetOpt(node, "noticeDate")) ==> EdgeItem(host, node, idx, base).date == []
    ensures !Truthy(GetOpt(node, "noticeTitle")) ==> TitlePart(host, node, idx) == "item-" + JsText.Decimal(idx + 1)
  {
    var part := TitlePart(host, node, idx);
    FallbackPathShape(base, part);
    UriCodec.DecodeEncode(part);
    UriCodec.EncodeHasNoSlash(part);
  }

  // ---------------------------------------------------------------------------
  // The date filter and the sort.

  /** `new Date(item.date || 0)` as a time value; `None` for `NaN`. */
  function DateKey(parse: string -> Option<Dates.Instant>, a: Announcement): Option<int> {
    if a.date == [] then Some(0)
    else match parse(a.date)
      case None => None
      case Some(t) => Some(t.ms)
  }

  function KeyOf(parse: string -> Option<Dates.Instant>): Announcement -> Option<int> {
    a => DateKey(parse, a)
  }

  /** The filter of `filterAndSortAnnouncements`: a title, and either no date or
      a date whose calendar day is not after today. A date the engine cannot
      read fails the `<=` test. */
  predicate IsCurrent(parse: string -> Option<Dates.Instant>, today: Dates.CalendarDate, a: Announcement) {
    a.title != [] && (a.date == [] || (parse(a.date).Some? && Dates.NotAfter(parse(a.date).value.local, today)))
  }

  function Filter(s: seq<Announcement>, p: Announcement -> bool): (r: seq<Announcement>)
    ensures multiset(r) <= multiset(s)
    ensures forall x :: x in r <==> x in s && p(x)
    ensures forall x :: x in s && p(x) ==> multiset(r)[x] == multiset(s)[x]
  {
    if s == [] then []
    else
      var rest := Filter(s[1..], p);
      assert s == [s[0]] + s[1..];
      if p(s[0]) then [s[0]] + rest else rest
  }

  /** `filterAndSortAnnouncements(items)` with today's local calendar date. */
  function FilterAndSort(parse: string -> Option<Dates.Instant>, today: Dates.CalendarDate, items: seq<Announcement>): seq<Announcement> {
    Sorting.SortNewestFirst(KeyOf(parse), Filter(items, a => IsCurrent(parse, today, a)))
  }

  /** The result keeps exactly the current records of the input, as many times
      as they occur there, and puts them newest first, an undated record
      counting as the epoch. */
  lemma FilterAndSortSpec(parse: string -> Option<Dates.Instant>, today: Dates.CalendarDate, items: seq<Announcement>)
    ensures var r := FilterAndSort(parse, today, items);
      && multiset(r) <= multiset(items)
      && (forall a :: a in r <==> a in items && IsCurrent(parse, today, a))
      && (forall a :: a in items && IsCurrent(parse, today, a) ==> multiset(r)[a] == multiset(items)[a])
      && (forall a :: a in r ==> a.title != [])
      && (forall a :: a in r && a.date != [] ==> parse(a.date).Some? && Dates.NotAfter(parse(a.date).value.local, today))
      && Sorting.NewestFirst(KeyOf(parse), r)
      && Sorting.AllKeyed(KeyOf(parse), r)
  {
    var kept := Filter(items, a => IsCurrent(parse, today, a));
    Sorting.SortPermutes(KeyOf(parse), kept);
    assert Sorting.AllKeyed(KeyOf(parse), kept) by {
      forall i | 0 <= i < |kept| ensures KeyOf(parse)(kept[i]).Some? {
        assert kept[i] in kept;
      }
    }
    Sorting.SortOrders(KeyOf(parse), kept);
  }

  /** Current records that share a time value keep their input order. */
  lemma FilterAndSortStable(parse: string -> Option<Dates.Instant>, today: Dates.CalendarDate, items: seq<Announcement>)
    ensures forall k ::
      Sorting.WithKey(KeyOf(parse), FilterAndSort(parse, today, items), k) ==
      Sorting.WithKey(KeyOf(parse), Filter(items, a => IsCurrent(parse, today, a)), k)
  {
    forall k
      ensures Sorting.WithKey(KeyOf(parse), FilterAndSort(parse, today, items), k) ==
        Sorting.WithKey(KeyOf(parse), Filter(items, a => IsCurrent(parse, today, a)), k)
    {
      Sorting.SortStable(KeyOf(parse), Filter(items, a => IsCurrent(parse, today, a)), k);
    }
  }

  // ---------------------------------------------------------------------------
  // The persisted-query payload.

  /** `v.length` */
  function LengthOf(v: Json): Option<Json> {
    match v
    case JArr(es) => Some(JNum(|es|))
    case JStr(s) => Some(JNum(|s|))
    case JObj(_) => Get(v, "length")
    case _ => None
  }

  /** `errors.map((er) => er.message)` joined: `undefined` and `null` print as
      the empty string. */
  function ErrorMessages(es: seq<Json>): (r: seq<string>)
    ensures |r| == |es|
    ensures forall i :: 0 <= i < |es| && (Get(es[i], "message").None? || Get(es[i], "message") == Some(JNull)) ==> r[i] == ""
    ensures forall i :: 0 <= i < |es| && Get(es[i], "message").Some? && Get(es[i], "message") != Some(JNull) ==>
      r[i] == ToStr(Get(es[i], "message").value)
  {
    seq(|es|, i requires 0 <= i < |es| =>
      match Get(es[i], "message")
      case None => ""
      case Some(m) => if m.JNull? then "" else ToStr(m))
  }

  const GraphQLErrorPrefix := "[PQ] GraphQL errors: "

  /** `payload?.data?.cubAnnouncementPaginated?.edges` */
  function EdgesValue(payload: Json): Option<Json> {
    GetOpt(GetOpt(Get(payload, "data"), "cubAnnouncementPaginated"), "edges")
  }

  /** The `errors` check: `None` when `payload.errors && payload.errors.length`
      is falsy; otherwise the error thrown, which is a `TypeError` when the
      errors are not an array or one of them is `null`. */
  function PqErrors(payload: Json): (r: Option<PqError>)
    ensures !Truthy(Get(payload, "errors")) ==> r.None?
    ensures (var errs := Get(payload, "errors");
             errs.Some? && errs.value.JArr? && |errs.value.elems| > 0
             && (forall i :: 0 <= i < |errs.value.elems| ==> errs.value.elems[i] != JNull)) ==>
      r == Some(GraphQLErrors(GraphQLErrorPrefix + Join(ErrorMessages(Get(payload, "errors").value.elems), "; ")))
    ensures Get(payload, "errors") == Some(JArr([])) ==> r.None?
  {
    var errs := Get(payload, "errors");
    if Truthy(errs) && Truthy(LengthOf(errs.value)) then
      if errs.value.JArr? then
        if exists i :: 0 <= i < |errs.value.elems| && errs.value.elems[i] == JNull then Some(TypeError)
        else Some(GraphQLErrors(GraphQLErrorPrefix + Join(ErrorMessages(errs.value.elems), "; ")))
      else Some(TypeError)
    else None
  }

  /** `payload?.data?.cubAnnouncementPaginated?.edges || []`, with the
      `TypeError` of calling `map` on a truthy value that is not an array. */
  function PqEdges(payload: Json): (r: Result<seq<Json>, PqError>)
    ensures !Truthy(EdgesValue(payload)) ==> r == Ok([])
    ensures Truthy(EdgesValue(payload)) && EdgesValue(payload).value.JArr? ==> r == Ok(EdgesValue(payload).value.elems)
    ensures Truthy(EdgesValue(payload)) && !EdgesValue(payload).value.JArr? ==> r == Err(TypeError)
  {
    var edges := EdgesValue(payload);
    if !Truthy(edges) then Ok([])
    else if edges.value.JArr? then Ok(edges.value.elems)
    else Err(TypeError)
  }

  /** Lines 158-168 of `fetchAnnouncementsPQ`, from the parsed payload on: a
      `null` payload throws; reported errors throw; a folder path that does not
      decode throws before the edges are read; otherwise the mapped edges
      are filtered and sorted. */
  function PqAnnouncements(host: Browser.Host, today: Dates.CalendarDate, payload: Json, cfPath: string): (r: Result<seq<Announcement>, PqError>)
    ensures payload.JNull? ==> r == Err(TypeError)
    ensures !payload.JNull? && PqErrors(payload).Some? ==> r == Err(PqErrors(payload).value)
    ensures !payload.JNull? && PqErrors(payload).None? && DecodedBase(cfPath).None? ==> r == Err(UriError)
    ensures !payload.JNull? && PqErrors(payload).None? && DecodedBase(cfPath).Some? && PqEdges(payload).Err? ==> r == Err(TypeError)
    ensures !payload.JNull? && PqErrors(payload).None? && PqEdges(payload).Ok? ==>
      match MapEdgesToItems(host, PqEdges(payload).value, cfPath)
      case Err(e) => r == Err(e)
      case Ok(items) => r == Ok(FilterAndSort(host.parseDate, today, items))
  {
    if payload.JNull? then Err(TypeError)
    else match PqErrors(payload)
      case Some(e) => Err(e)
      case None =>
        // `mapEdgesToItems` decodes the folder path before it maps the edges.
        if DecodedBase(cfPath).None? then Err(UriError)
        else match PqEdges(payload)
          case Err(e) => Err(e)
          case Ok(list) =>
            match MapEdgesToItems(host, list, cfPath)
            case Err(e) => Err(e)
            case Ok(items) => Ok(FilterAndSort(host.parseDate, today, items))
  }

  /** The folder path is decoded before the edges are read: with an
      undecodable path, even an `edges` value that is not an array ends in
      the `URIError`. */
  lemma PqDecodesBeforeEdges(host: Browser.Host, today: Dates.CalendarDate)
    ensures var payload := JObj([Member("data", JObj([Member("cubAnnouncementPaginated",
                JObj([Member("edges", JStr("x"))]))]))]);
      PqEdges(payload) == Err(TypeError) && PqAnnouncements(host, today, payload, "a%zz") == Err(UriError)
  {
    var payload := JObj([Member("data", JObj([Member("cubAnnouncementPaginated",
                JObj([Member("edges", JStr("x"))]))]))]);
    assert UriCodec.EscapedByte("%zz").None?;
    assert UriCodec.Decode("a%zz") == UriCodec.Cons('a', UriCodec.Decode("%zz"));
    assert Get(payload, "errors").None?;
  }

  /** A payload with non-empty GraphQL errors fails with their messages joined
      by `'; '`; a payload with neither errors nor edges lists nothing, unless
      the folder path cannot be decoded. */
  lemma PqPayloadRule(host: Browser.Host, today: Dates.CalendarDate, payload: Json, cfPath: string)
    requires !payload.JNull?
    ensures (var errs := Get(payload, "errors");
             errs.Some? && errs.value.JArr? && |errs.value.elems| > 0
             && (forall i :: 0 <= i < |errs.value.elems| ==> errs.value.elems[i] != JNull)) ==>
      PqAnnouncements(host, today, payload, cfPath)
        == Err(GraphQLErrors(GraphQLErrorPrefix + Join(ErrorMessages(Get(payload, "errors").value.elems), "; ")))
    ensures !Truthy(Get(payload, "errors")) && !Truthy(EdgesValue(payload)) ==>
      PqAnnouncements(host, today, payload, cfPath) == (if DecodedBase(cfPath).Some? then Ok([]) else Err(UriError))
  {
    if !Truthy(Get(payload, "errors")) && !Truthy(EdgesValue(payload)) {
      var m := MapEdgesToItems(host, [], cfPath);
      if m.Ok? {
        assert m.value == [];
        assert FilterAndSort(host.parseDate, today, []) == [];
      }
    }
  }
}
