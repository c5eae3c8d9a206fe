/** The `decorate` function of blocks/announcement: the configuration with its
    defaults, the persisted-query branch with the JCR fallback, and what the
    news list shows. */
module NewsBlock {
  import opened Wrappers
  import opened Json
  import JsText
  import Dates
  import Browser
  import opened Announcements
  import opened Jcr

  /** The `data` object the configuration scan fills in; a member the scan did
      not set is `None`. */
  datatype Config = Config(title: Option<string>, cfPath: Option<string>, maxItems: Option<string>, showDate: Option<string>)

  const DefaultMaxItems := "10"
  const DefaultShowDate := "true"
  const MissingPathMessage := "請設定公告資料夾路徑"
  const LoadingText := "載入中..."
  const NoDataText := "目前沒有公告"

  /** The destructuring defaults: they apply only to members never set, so a
      member set to the empty string stays empty. */
  function TitleOf(c: Config): string { c.title.GetOr("") }
  function CfPathOf(c: Config): string { c.cfPath.GetOr("") }
  function MaxItemsOf(c: Config): string { c.maxItems.GetOr(DefaultMaxItems) }
  function ShowDateOf(c: Config): string { c.showDate.GetOr(DefaultShowDate) }

  /** One rendered `a.news-item`: its `href`, the optional `news-date` text, the
      `news-title` text and the optional `news-excerpt` text. */
  datatype Entry = Entry(href: string, date: Option<string>, title: string, excerpt: Option<string>)

  /** The content of `div.news-list`: the `LoadingText` placeholder, an
      `div.error` message, the `NoDataText` notice, or the item links. */
  datatype ListView = Loading | ErrorText(message: string) | NoData | Entries(entries: seq<Entry>)

  /** The end index of `slice(0, end)` for `end = parseInt(maxItems, 10)`:
      `NaN` counts as 0 and a negative end counts from the back. */
  function SliceEnd(end: Option<int>, len: nat): (k: nat)
    ensures k <= len
    ensures end.None? ==> k == 0
    ensures end.Some? && end.value >= 0 ==> k == if end.value < len then end.value else len
    ensures end.Some? && end.value < 0 ==> k == if len + end.value > 0 then len + end.value else 0
  {
    match end
    case None => 0
    case Some(n) =>
      if n >= 0 then (if n < len then n else len)
      else if len + n > 0 then len + n else 0
  }

  /** `announcements.slice(0, parseInt(maxItems, 10))` */
  function DisplayItems(items: seq<Announcement>, maxItems: string): (r: seq<Announcement>)
    ensures r <= items
  {
    items[..SliceEnd(JsText.ParseInt(maxItems), |items|)]
  }

  /** A `maxItems` written as a decimal count shows that many items, or all of
      them when there are fewer. */
  lemma DisplayCount(items: seq<Announcement>, count: nat)
    ensures var r := DisplayItems(items, JsText.Decimal(count));
      r <= items && |r| == if count < |items| then count else |items|
  {
    JsText.ParseIntDecimal(count);
    assert SliceEnd(JsText.ParseInt(JsText.Decimal(count)), |items|) == SliceEnd(Some(count), |items|);
  }

  /** The default `maxItems` shows at most ten items. */
  lemma DefaultDisplayCount(items: seq<Announcement>)
    ensures |DisplayItems(items, DefaultMaxItems)| == if 10 < |items| then 10 else |items|
  {
    assert JsText.NatDecimal(1) == "1";
    assert JsText.Decimal(10) == DefaultMaxItems;
    DisplayCount(items, 10);
  }

  /** The entry of one announcement: the path or `#`, a formatted date only when
      dates are on and the record has one, and the excerpt only when it is not
      empty. */
  function EntryOf(showDate: string, parse: string -> Option<Dates.Instant>, a: Announcement): (e: Entry)
    ensures e.href != [] && (a.path != [] ==> e.href == a.path)
    ensures e.date.Some? <==> showDate == "true" && a.date != []
    ensures e.date.Some? ==> e.date.value == Dates.FormatDate(a.date, parse) && e.date.value != []
    ensures e.title == a.title
    ensures e.excerpt.Some? <==> a.excerpt != []
    ensures e.excerpt.Some? ==> e.excerpt.value == a.excerpt
  {
    Entry(
      if a.path != [] then a.path else "#",
      if showDate == "true" && a.date != [] then Some(Dates.FormatDate(a.date, parse)) else None,
      a.title,
      if a.excerpt != [] then Some(a.excerpt) else None)
  }

  /** The news list for an outcome: the error message, the no-data notice, or
      one entry per displayed item, in order. */
  function ListFor(outcome: JcrOutcome, c: Config, parse: string -> Option<Dates.Instant>): ListView {
    match outcome
    case Failed(message) => ErrorText(message)
    case Listed(items) =>
      if items == [] then NoData
      else
        var shown := DisplayItems(items, MaxItemsOf(c));
        Entries(seq(|shown|, i requires 0 <= i < |shown| => EntryOf(ShowDateOf(c), parse, shown[i])))
  }

  /** What the list shows: an error only for a failed outcome, the notice only
      for an empty list, and otherwise the leading items, one entry each, in
      order and no more than `maxItems` asks for. */
  lemma ListForSpec(outcome: JcrOutcome, c: Config, parse: string -> Option<Dates.Instant>)
    ensures ListFor(outcome, c, parse).ErrorText? <==> outcome.Failed?
    ensures ListFor(outcome, c, parse).NoData? <==> outcome == Listed([])
    ensures ListFor(outcome, c, parse) != Loading
    ensures ListFor(outcome, c, parse).Entries? ==>
      var es := ListFor(outcome, c, parse).entries;
      var n := JsText.ParseInt(MaxItemsOf(c));
      && |es| <= |outcome.items|
      && (n.Some? && n.value >= 0 ==> |es| <= n.value)
      && (n.None? ==> es == [])
      && forall i :: 0 <= i < |es| ==> es[i] == EntryOf(ShowDateOf(c), parse, outcome.items[i])
  {
    if outcome.Listed? && outcome.items != [] {
      var shown := DisplayItems(outcome.items, MaxItemsOf(c));
      assert forall i :: 0 <= i < |shown| ==> shown[i] == outcome.items[i];
    }
  }

  /** The rendered block: the optional `h2.news-section-title` and the news list. */
  class NewsBlock {
    var heading: Option<string>
    var list: ListView

    constructor ()
      ensures heading == None && list == Loading
    {
      heading := None;
      list := Loading;
    }

    /** `decorate(block)` from the scanned configuration on. */
    method Decorate(host: Browser.Host, today: Dates.CalendarDate, c: Config, pq: Option<Json>, jcr: Option<Json>)
      modifies this
      ensures heading == if TitleOf(c) != [] then Some(TitleOf(c)) else None
      ensures CfPathOf(c) == [] ==> list == ErrorText(MissingPathMessage)
      ensures CfPathOf(c) != [] && pq.Some? && PqAnnouncements(host, today, pq.value, CfPathOf(c)).Ok? ==>
        list == ListFor(Listed(PqAnnouncements(host, today, pq.value, CfPathOf(c)).value), c, host.parseDate)
      ensures CfPathOf(c) != [] && (pq.None? || PqAnnouncements(host, today, pq.value, CfPathOf(c)).Err?) ==>
        list == ListFor(JcrOutcomeOf(host.parseDate, today, CfPathOf(c), jcr), c, host.parseDate)
    {
      var title := TitleOf(c);
      var cfPath := CfPathOf(c);
      heading := if title != [] then Some(title) else None;
      list := Loading;
      if cfPath == [] {
        list := ErrorText(MissingPathMessage);
        return;
      }
      var announcements := FetchAnnouncements(host, today, cfPath, pq, jcr);
      ShowList(announcements, c, host.parseDate);
    }

    /** The news list once the announcements are in. */
    method ShowList(announcements: JcrOutcome, c: Config, parse: string -> Option<Dates.Instant>)
      modifies this
      ensures heading == old(heading)
      ensures list == ListFor(announcements, c, parse)
    {
      if announcements.Failed? {
        list := ErrorText(announcements.message);
        return;
      }
      if announcements.items == [] {
        list := NoData;
        return;
      }
      var displayItems := DisplayItems(announcements.items, MaxItemsOf(c));
      var entries := RenderEntries(displayItems, ShowDateOf(c), parse);
      assert entries == seq(|displayItems|, i requires 0 <= i < |displayItems| => EntryOf(ShowDateOf(c), parse, displayItems[i]));
      list := Entries(entries);
    }
  }

  /** The `forEach` over the displayed items: one entry each, in order. */
  method RenderEntries(displayItems: seq<Announcement>, showDate: string, parse: string -> Option<Dates.Instant>)
    returns (entries: seq<Entry>)
    ensures |entries| == |displayItems|
    ensures forall j :: 0 <= j < |displayItems| ==> entries[j] == EntryOf(showDate, parse, displayItems[j])
  {
    entries := [];
    var i := 0;
    while i < |displayItems|
      invariant 0 <= i <= |displayItems|
      invariant |entries| == i
      invariant forall j :: 0 <= j < i ==> entries[j] == EntryOf(showDate, parse, displayItems[j])
    {
      entries := entries + [EntryOf(showDate, parse, displayItems[i])];
      i := i + 1;
    }
  }

  /** The `try`/`catch` around the persisted query with the JCR fallback;
      `pq` is the parsed payload, `None` when the request or the JSON parse
      threw, and `jcr` the payload of the first JCR endpoint that answered. A
      persisted query that lists announcements wins and the JCR payload is not
      read; when the query fails in any way, the JCR outcome is the result. */
  method FetchAnnouncements(host: Browser.Host, today: Dates.CalendarDate, cfPath: string, pq: Option<Json>, jcr: Option<Json>)
    returns (announcements: JcrOutcome)
    ensures pq.Some? && PqAnnouncements(host, today, pq.value, cfPath).Ok? ==>
      announcements == Listed(PqAnnouncements(host, today, pq.value, cfPath).value)
    ensures pq.None? || PqAnnouncements(host, today, pq.value, cfPath).Err? ==>
      announcements == JcrOutcomeOf(host.parseDate, today, cfPath, jcr)
  {
    var fromPq := if pq.Some? then PqAnnouncements(host, today, pq.value, cfPath) else Err(TypeError);
    if fromPq.Ok? {
      announcements := Listed(fromPq.value);
    } else {
      announcements := JcrAnnouncements(host, today, cfPath, jcr);
    }
  }
}
