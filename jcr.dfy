/** The JCR JSON fallback of blocks/announcement: finding the child items in
    a Sling JSON rendering of a folder, reading a record out of each item, and
    the filter and sort that follow. */
module Jcr {
  import opened Wrappers
  import opened Json
  import JsText
  import UriCodec
  import Dates
  import Browser
  import Sorting
  import opened Announcements

  /** The members tried, in order, for a list of children. */
  const ChildKeys: seq<string> := [":children", "children", ":items", "items", "content", ":content"]

  /** The items a child key supplies: its array, or the first array-valued
      member of its object. A falsy or primitive value supplies nothing. */
  function Supplies(v: Option<Json>): Option<seq<Json>> {
    if !Truthy(v) then None
    else match v.value
      case JArr(es) => Some(es)
      case JObj(nested) => FirstArrayMember(nested)
      case _ => None
  }

  /** The elements of the first member (in key order) whose value is an array. */
  function FirstArrayMember(ms: seq<Member>): (r: Option<seq<Json>>)
    ensures r.None? <==> forall j :: 0 <= j < |ms| ==> !ms[j].value.JArr?
    ensures r.Some? ==> exists j :: (0 <= j < |ms| && ms[j].value == JArr(r.value)
                                     && forall k :: 0 <= k < j ==> !ms[k].value.JArr?)
  {
    if ms == [] then None
    else if ms[0].value.JArr? then Some(ms[0].value.elems)
    else
      assert forall k :: 0 <= k < |ms| - 1 ==> ms[1..][k] == ms[k + 1];
      FirstArrayMember(ms[1..])
  }

  /** What the first child key among `keys` that supplies anything supplies. */
  function FirstSupplied(ms: seq<Member>, keys: seq<string>): (r: Option<seq<Json>>)
    ensures r.None? <==> forall i :: 0 <= i < |keys| ==> Supplies(Lookup(ms, keys[i])).None?
    ensures r.Some? ==> exists i :: (0 <= i < |keys| && Supplies(Lookup(ms, keys[i])) == r
                                     && forall k :: 0 <= k < i ==> Supplies(Lookup(ms, keys[k])).None?)
  {
    if keys == [] then None
    else if Supplies(Lookup(ms, keys[0])).Some? then Supplies(Lookup(ms, keys[0]))
    else
      assert forall k :: 0 <= k < |keys| - 1 ==> keys[1..][k] == keys[k + 1];
      FirstSupplied(ms, keys[1..])
  }

  predicate IsSystemKey(key: string) {
    JsText.StartsWith(key, "jcr:") || JsText.StartsWith(key, "sling:") || JsText.StartsWith(key, "rep:")
  }

  /** A member that becomes a child node: a non-system key holding an object. */
  predicate IsChildMember(m: Member) {
    !IsSystemKey(m.key) && m.value.JObj?
  }

  /** `{ ...value, name: key }` */
  function ChildNode(m: Member): (r: Json)
    requires m.value.JObj?
    ensures r.JObj? && Lookup(r.members, "name") == Some(JStr(m.key))
    ensures forall k :: k != "name" ==> Lookup(r.members, k) == Lookup(m.value.members, k)
  {
    JObj(SetMember(m.value.members, "name", JStr(m.key)))
  }

  /** The child nodes of the members, in key order. */
  function ChildNodes(ms: seq<Member>): (r: seq<Json>)
    ensures |r| <= |ms|
  {
    if ms == [] then []
    else
      var rest := ChildNodes(ms[..|ms| - 1]);
      if IsChildMember(ms[|ms| - 1]) then rest + [ChildNode(ms[|ms| - 1])] else rest
  }

  /** The child nodes are exactly those of the child members: none when there
      is no child member, each child member's node, and nothing else. */
  lemma ChildNodesMembers(ms: seq<Member>)
    ensures ChildNodes(ms) == [] <==> forall k :: 0 <= k < |ms| ==> !IsChildMember(ms[k])
    ensures forall k :: 0 <= k < |ms| && IsChildMember(ms[k]) ==> ChildNode(ms[k]) in ChildNodes(ms)
    ensures forall c :: c in ChildNodes(ms) ==> exists k :: 0 <= k < |ms| && IsChildMember(ms[k]) && c == ChildNode(ms[k])
  {
    ChildNodesComplete(ms);
    ChildNodesSound(ms);
  }

  lemma {:induction false} ChildNodesComplete(ms: seq<Member>)
    ensures forall k :: 0 <= k < |ms| && IsChildMember(ms[k]) ==> ChildNode(ms[k]) in ChildNodes(ms)
  {
    if ms != [] {
      var front := ms[..|ms| - 1];
      ChildNodesComplete(front);
      forall k | 0 <= k < |ms| && IsChildMember(ms[k])
        ensures ChildNode(ms[k]) in ChildNodes(ms)
      {
        if k < |ms| - 1 {
          assert front[k] == ms[k];
        }
      }
    }
  }

  lemma {:induction false} ChildNodesSound(ms: seq<Member>)
    ensures forall c :: c in ChildNodes(ms) ==> exists k :: 0 <= k < |ms| && IsChildMember(ms[k]) && c == ChildNode(ms[k])
  {
    if ms != [] {
      var front := ms[..|ms| - 1];
      ChildNodesSound(front);
      forall c | c in ChildNodes(ms)
        ensures exists k :: 0 <= k < |ms| && IsChildMember(ms[k]) && c == ChildNode(ms[k])
      {
        if c in ChildNodes(front) {
          var k :| 0 <= k < |front| && IsChildMember(front[k]) && c == ChildNode(front[k]);
          assert ms[k] == front[k];
        } else {
          assert c == ChildNode(ms[|ms| - 1]);
        }
      }
    }
  }

  /** The items of a non-empty payload. */
  function DiscoveredItems(data: Json): seq<Json> {
    match data
    case JArr(es) => es
    case JObj(ms) =>
      (match FirstSupplied(ms, ChildKeys)
       case Some(items) => items
       case None => if ChildNodes(ms) != [] then ChildNodes(ms) else [data])
    case _ => []
  }

  /** Child discovery case by case: an array payload is used as it is; an
      object payload takes what its first supplying child key supplies; with
      no such key, the child nodes, each named after its member; with no child
      member either, the payload alone. */
  lemma DiscoveredItemsSpec(data: Json)
    ensures data.JArr? ==> DiscoveredItems(data) == data.elems
    ensures data.JObj? ==> forall i :: 0 <= i < |ChildKeys| ==>
      (Supplies(Lookup(data.members, ChildKeys[i])).Some?
       && (forall k :: 0 <= k < i ==> Supplies(Lookup(data.members, ChildKeys[k])).None?)) ==>
      DiscoveredItems(data) == Supplies(Lookup(data.members, ChildKeys[i])).value
    ensures data.JObj? && NoKeySupplies(data.members) && NoChildMember(data.members) ==>
      DiscoveredItems(data) == [data]
  {
    if data.JObj? {
      var ms := data.members;
      forall i | 0 <= i < |ChildKeys| && Supplies(Lookup(ms, ChildKeys[i])).Some?
        && (forall k :: 0 <= k < i ==> Supplies(Lookup(ms, ChildKeys[k])).None?)
        ensures DiscoveredItems(data) == Supplies(Lookup(ms, ChildKeys[i])).value
      {
        FirstSupplierWins(ms, i);
      }
      if NoKeySupplies(ms) && NoChildMember(ms) {
        assert FirstSupplied(ms, ChildKeys).None?;
        ChildNodesMembers(ms);
      }
    }
  }

  /** The first child key that supplies items is the one whose items are used. */
  lemma FirstSupplierWins(ms: seq<Member>, i: nat)
    requires i < |ChildKeys| && Supplies(Lookup(ms, ChildKeys[i])).Some?
    requires forall k :: 0 <= k < i ==> Supplies(Lookup(ms, ChildKeys[k])).None?
    ensures FirstSupplied(ms, ChildKeys) == Supplies(Lookup(ms, ChildKeys[i]))
  {
    var r := FirstSupplied(ms, ChildKeys);
    var j :| 0 <= j < |ChildKeys| && Supplies(Lookup(ms, ChildKeys[j])) == r
      && forall k :: 0 <= k < j ==> Supplies(Lookup(ms, ChildKeys[k])).None?;
    assert i == j;
  }

  /** With no supplying child key and at least one child member, the items
      are the child nodes in key order: every child member's node, named after
      its key, and nothing else. */
  lemma DiscoveredChildNodes(data: Json)
    requires data.JObj? && NoKeySupplies(data.members) && !NoChildMember(data.members)
    ensures DiscoveredItems(data) == ChildNodes(data.members)
    ensures forall k :: 0 <= k < |data.members| && IsChildMember(data.members[k]) ==>
      ChildNode(data.members[k]) in DiscoveredItems(data)
    ensures forall c :: c in DiscoveredItems(data) ==>
      exists k :: (0 <= k < |data.members| && IsChildMember(data.members[k]) && c == ChildNode(data.members[k])
                   && Lookup(c.members, "name") == Some(JStr(data.members[k].key)))
  {
    var ms := data.members;
    assert FirstSupplied(ms, ChildKeys).None?;
    ChildNodesMembers(ms);
    assert ChildNodes(ms) != [];
  }

  ghost predicate NoKeySupplies(ms: seq<Member>) {
    forall i :: 0 <= i < |ChildKeys| ==> Supplies(Lookup(ms, ChildKeys[i])).None?
  }

  ghost predicate NoChildMember(ms: seq<Member>) {
    forall k :: 0 <= k < |ms| ==> !IsChildMember(ms[k])
  }

  /** The scan for an array-valued member of an object under a child key. */
  method NestedArray(nested: seq<Member>) returns (found: Option<seq<Json>>)
    ensures found == FirstArrayMember(nested)
  {
    found := None;
    var j := 0;
    while j < |nested| && found.None?
      invariant 0 <= j <= |nested|
      invariant found.None? ==> FirstArrayMember(nested) == FirstArrayMember(nested[j..])
      invariant found.Some? ==> FirstArrayMember(nested) == found
    {
      if nested[j].value.JArr? {
        found := Some(nested[j].value.elems);
      }
      j := j + 1;
    }
  }

  /** The `forEach` collecting child nodes. */
  method CollectChildNodes(ms: seq<Member>) returns (childNodes: seq<Json>)
    ensures childNodes == ChildNodes(ms)
  {
    childNodes := [];
    var k := 0;
    while k < |ms|
      invariant 0 <= k <= |ms|
      invariant childNodes == ChildNodes(ms[..k])
    {
      assert ms[..k + 1][..k] == ms[..k];
      var key := ms[k].key;
      if !IsSystemKey(key) {
        var value := ms[k].value;
        if value.JObj? {
          childNodes := childNodes + [ChildNode(ms[k])];
        }
      }
      k := k + 1;
    }
    assert ms[..|ms|] == ms;
  }

  /** The scan of the child keys, stopping at the first that supplies items. */
  method ScanChildKeys(ms: seq<Member>) returns (found: Option<seq<Json>>)
    ensures found == FirstSupplied(ms, ChildKeys)
  {
    found := None;
    var i := 0;
    while i < |ChildKeys| && found.None?
      invariant 0 <= i <= |ChildKeys|
      invariant found.None? ==> FirstSupplied(ms, ChildKeys) == FirstSupplied(ms, ChildKeys[i..])
      invariant found.Some? ==> FirstSupplied(ms, ChildKeys) == found
    {
      var value := Lookup(ms, ChildKeys[i]);
      if Truthy(value) {
        if value.value.JArr? {
          found := Some(value.value.elems);
        } else if value.value.JObj? {
          found := NestedArray(value.value.members);
        }
      }
      i := i + 1;
    }
  }

  /** Child discovery: the payload's own array, else what the child keys
      supply, else the child nodes, else the payload alone. */
  method DiscoverItems(data: Json) returns (items: seq<Json>)
    ensures items == DiscoveredItems(data)
  {
    items := [];
    if data.JArr? {
      items := data.elems;
    } else if data.JObj? {
      var found := ScanChildKeys(data.members);
      if found.Some? {
        items := found.value;
      } else {
        var childNodes := CollectChildNodes(data.members);
        items := if |childNodes| > 0 then childNodes else [data];
      }
    }
  }

  // ---------------------------------------------------------------------------
  // One record per item.

  /** `cfData`: `jcr:content.data.master`, else `jcr:content.data`, else
      `jcr:content`, else nothing. */
  function CfData(item: Json): (r: Option<Json>)
    ensures r.Some? ==> Truthy(r)
    ensures !Truthy(Get(item, "jcr:content")) ==> r.None?
    ensures Truthy(Get(item, "jcr:content")) ==>
      var content := Get(item, "jcr:content").value;
      var data := Get(content, "data");
      && (!Truthy(data) ==> r == Some(content))
      && (Truthy(data) && Truthy(Get(data.value, "master")) ==> r == Get(data.value, "master"))
      && (Truthy(data) && !Truthy(Get(data.value, "master")) ==> r == data)
  {
    var content := Get(item, "jcr:content");
    if !Truthy(content) then None
    else
      var data := Get(content.value, "data");
      if Truthy(data) then
        var master := Get(data.value, "master");
        if Truthy(master) then master else data
      else content
  }

  function TitleCandidates(item: Json): seq<Option<Json>> {
    var cf := CfData(item);
    [GetOpt(cf, "noticeTitle"), GetOpt(cf, "title"), GetOpt(cf, "jcr:title"),
     Get(item, "jcr:title"), Get(item, "title"), Get(item, "noticeTitle"),
     Get(item, "name"), Get(item, "jcr:name"), Get(item, "_name")]
  }

  function DateCandidates(item: Json): seq<Option<Json>> {
    var cf := CfData(item);
    [GetOpt(cf, "noticeDate"), GetOpt(cf, "date"), GetOpt(cf, "published"),
     Get(item, "noticeDate"), Get(item, "date"), Get(item, "jcr:lastModified"),
     Get(item, "jcr:created"), Get(item, "published")]
  }

  function ExcerptCandidates(item: Json): seq<Option<Json>> {
    var cf := CfData(item);
    [GetOpt(GetOpt(cf, "noticeContent"), "plaintext"), GetOpt(cf, "noticeContent"),
     GetOpt(cf, "excerpt"), GetOpt(cf, "description"), Get(item, "excerpt"),
     GetOpt(Get(item, "noticeContent"), "plaintext"), Get(item, "description"),
     Get(item, "jcr:description")]
  }

  /** `` `${cfPath}/${item.name || item['jcr:name'] || nodeName || ''}` `` */
  function NamedPath(item: Json, cfPath: string): string {
    cfPath + "/" + StrOr([Get(item, "name"), Get(item, "jcr:name"), Get(item, "_name")])
  }

  /** The path chain as it is written: the third candidate reads `path` a
      second time, so `_path` is never consulted. */
  function PathAsWritten(item: Json, cfPath: string): (r: string)
    ensures Truthy(Get(item, "jcr:path")) ==> r == ToStr(Get(item, "jcr:path").value)
    ensures !Truthy(Get(item, "jcr:path")) && Truthy(Get(item, "path")) ==> r == ToStr(Get(item, "path").value)
    ensures !Truthy(Get(item, "jcr:path")) && !Truthy(Get(item, "path")) ==> r == NamedPath(item, cfPath)
  {
    var chain := [Get(item, "jcr:path"), Get(item, "path"), Get(item, "path")];
    assert chain[1..] == [Get(item, "path"), Get(item, "path")];
    assert chain[1..][1..] == [Get(item, "path")];
    assert FirstTruthy(chain) == if Truthy(chain[0]) then chain[0] else if Truthy(chain[1]) then chain[1] else None;
    match FirstTruthy(chain)
    case Some(v) => ToStr(v)
    case None => NamedPath(item, cfPath)
  }

  /** The path chain with its third candidate read as `_path`, the key the
      persisted-query branch uses for the same field. */
  function PathOf(item: Json, cfPath: string): (r: string)
    ensures Truthy(Get(item, "jcr:path")) ==> r == ToStr(Get(item, "jcr:path").value)
    ensures !Truthy(Get(item, "jcr:path")) && Truthy(Get(item, "path")) ==> r == ToStr(Get(item, "path").value)
    ensures !Truthy(Get(item, "jcr:path")) && !Truthy(Get(item, "path")) && Truthy(Get(item, "_path")) ==>
      r == ToStr(Get(item, "_path").value)
    ensures !Truthy(Get(item, "jcr:path")) && !Truthy(Get(item, "path")) && !Truthy(Get(item, "_path")) ==>
      r == NamedPath(item, cfPath)
  {
    var chain := [Get(item, "jcr:path"), Get(item, "path"), Get(item, "_path")];
    assert chain[1..] == [Get(item, "path"), Get(item, "_path")];
    assert chain[1..][1..] == [Get(item, "_path")];
    assert FirstTruthy(chain) == if Truthy(chain[0]) then chain[0] else if Truthy(chain[1]) then chain[1]
      else if Truthy(chain[2]) then chain[2] else None;
    match FirstTruthy(chain)
    case Some(v) => ToStr(v)
    case None =>
      assert !Truthy(chain[0]) && !Truthy(chain[1]) && !Truthy(chain[2]);
      NamedPath(item, cfPath)
  }

  /** An item carrying only `_path` gets a path built from the folder instead
      of its own path when the chain is read as written. */
  lemma UnderscorePathIgnored()
    ensures var item := JObj([Member("_path", JStr("/content/a"))]);
      PathAsWritten(item, "/content/f") == "/content/f/"
      && PathOf(item, "/content/f") == "/content/a"
  {
    var item := JObj([Member("_path", JStr("/content/a"))]);
    assert Get(item, "jcr:path") == None;
    assert Get(item, "path") == None;
    assert Get(item, "name") == None && Get(item, "jcr:name") == None && Get(item, "_name") == None;
    assert StrOr([Get(item, "name"), Get(item, "jcr:name"), Get(item, "_name")]) == [];
  }

  /** The chain as written and the intended chain give the same path except
      for an item whose only truthy path key of the three is `_path`. */
  lemma PathChainsAgree(item: Json, cfPath: string)
    ensures PathAsWritten(item, cfPath) != PathOf(item, cfPath) ==>
      !Truthy(Get(item, "jcr:path")) && !Truthy(Get(item, "path")) && Truthy(Get(item, "_path"))
    ensures Truthy(Get(item, "jcr:path")) || Truthy(Get(item, "path")) || !Truthy(Get(item, "_path")) ==>
      PathAsWritten(item, cfPath) == PathOf(item, cfPath)
  {
  }

  /** The record of one item: each field is the first truthy value of its
      chain as a trimmed string; the path is the item's own path or the folder
      path followed by `/` and the item's name. */
  function JcrRecord(item: Json, cfPath: string): (r: Announcement)
    ensures r.title == JsText.Trim(StrOr(TitleCandidates(item)))
    ensures r.date == JsText.Trim(StrOr(DateCandidates(item)))
    ensures r.excerpt == JsText.Trim(StrOr(ExcerptCandidates(item)))
    ensures r.path == PathOf(item, cfPath)
  {
    Announcement(
      PathOf(item, cfPath),
      JsText.Trim(StrOr(TitleCandidates(item))),
      JsText.Trim(StrOr(DateCandidates(item))),
      JsText.Trim(StrOr(ExcerptCandidates(item))))
  }

  /** The `item && typeof item === 'object'` filter. */
  function ObjectItems(items: seq<Json>): (r: seq<Json>)
    ensures forall x :: x in r <==> x in items && IsObjectLike(x)
    ensures |r| <= |items|
  {
    if items == [] then []
    else
      var rest := ObjectItems(items[1..]);
      assert items == [items[0]] + items[1..];
      if IsObjectLike(items[0]) then [items[0]] + rest else rest
  }

  function Records(items: seq<Json>, cfPath: string): (r: seq<Announcement>)
    ensures |r| == |items|
    ensures forall i :: 0 <= i < |items| ==> r[i] == JcrRecord(items[i], cfPath)
  {
    seq(|items|, i requires 0 <= i < |items| => JcrRecord(items[i], cfPath))
  }

  /** The inline date filter of the JCR branch: a title, and no date, or a date
      whose calendar day is not after today. A date the engine cannot read
      compares false with `>` and is kept. */
  predicate JcrKeeps(parse: string -> Option<Dates.Instant>, today: Dates.CalendarDate, a: Announcement) {
    a.title != []
      && (a.date == [] || parse(a.date).None? || Dates.NotAfter(parse(a.date).value.local, today))
  }

  /** The two filters agree except on a titled record whose date cannot be
      read: the JCR branch keeps it, `filterAndSortAnnouncements` drops it. */
  lemma FiltersDifferOnUnreadableDates(parse: string -> Option<Dates.Instant>, today: Dates.CalendarDate, a: Announcement)
    ensures IsCurrent(parse, today, a) ==> JcrKeeps(parse, today, a)
    ensures JcrKeeps(parse, today, a) && !IsCurrent(parse, today, a) <==> a.title != [] && a.date != [] && parse(a.date).None?
  {
  }

  function JcrList(parse: string -> Option<Dates.Instant>, today: Dates.CalendarDate, items: seq<Json>, cfPath: string): seq<Announcement> {
    Sorting.SortNewestFirst(KeyOf(parse), KeptRecords(parse, today, items, cfPath))
  }

  /** The filtered records, before the sort. */
  function KeptRecords(parse: string -> Option<Dates.Instant>, today: Dates.CalendarDate, items: seq<Json>, cfPath: string): seq<Announcement> {
    Filter(Records(ObjectItems(items), cfPath), a => JcrKeeps(parse, today, a))
  }

  /** A kept record comes from an object item, and every object item whose
      record passes the filter is kept. */
  lemma KeptRecordsSpec(parse: string -> Option<Dates.Instant>, today: Dates.CalendarDate, items: seq<Json>, cfPath: string)
    ensures forall a :: a in KeptRecords(parse, today, items, cfPath) ==>
      JcrKeeps(parse, today, a) && exists x :: x in items && IsObjectLike(x) && a == JcrRecord(x, cfPath)
    ensures forall x :: x in items && IsObjectLike(x) && JcrKeeps(parse, today, JcrRecord(x, cfPath)) ==>
      JcrRecord(x, cfPath) in KeptRecords(parse, today, items, cfPath)
  {
    var objs := ObjectItems(items);
    var recs := Records(objs, cfPath);
    forall a | a in KeptRecords(parse, today, items, cfPath)
      ensures exists x :: x in items && IsObjectLike(x) && a == JcrRecord(x, cfPath)
    {
      var i :| 0 <= i < |recs| && recs[i] == a;
      assert objs[i] in objs;
    }
    forall x | x in items && IsObjectLike(x) && JcrKeeps(parse, today, JcrRecord(x, cfPath))
      ensures JcrRecord(x, cfPath) in KeptRecords(parse, today, items, cfPath)
    {
      var i :| 0 <= i < |objs| && objs[i] == x;
      assert recs[i] in recs;
    }
  }

  /** Every listed record comes from an object item, has a title and is not
      dated after today unless its date cannot be read; every object item
      whose record passes the filter is listed. */
  lemma JcrListMembers(parse: string -> Option<Dates.Instant>, today: Dates.CalendarDate, items: seq<Json>, cfPath: string)
    ensures forall a :: a in JcrList(parse, today, items, cfPath) ==>
      a.title != [] && exists x :: x in items && IsObjectLike(x) && a == JcrRecord(x, cfPath)
    ensures forall a :: a in JcrList(parse, today, items, cfPath) && a.date != [] && parse(a.date).Some? ==>
      Dates.NotAfter(parse(a.date).value.local, today)
    ensures forall x :: x in items && IsObjectLike(x) && JcrKeeps(parse, today, JcrRecord(x, cfPath)) ==>
      JcrRecord(x, cfPath) in JcrList(parse, today, items, cfPath)
  {
    var kept := KeptRecords(parse, today, items, cfPath);
    var list := JcrList(parse, today, items, cfPath);
    KeptRecordsSpec(parse, today, items, cfPath);
    Sorting.SortMembers(KeyOf(parse), kept);
    assert forall a :: a in list <==> a in kept;
  }

  /** The list holds each kept record as often as the filter keeps it. The
      records with a readable date are newest first, and records that share a
      time value, or whose dates cannot be read, keep the filter's order. */
  lemma JcrListOrder(parse: string -> Option<Dates.Instant>, today: Dates.CalendarDate, items: seq<Json>, cfPath: string)
    ensures multiset(JcrList(parse, today, items, cfPath)) == multiset(KeptRecords(parse, today, items, cfPath))
    ensures Sorting.NewestFirst(KeyOf(parse), JcrList(parse, today, items, cfPath))
    ensures forall k ::
      Sorting.WithKey(KeyOf(parse), JcrList(parse, today, items, cfPath), k) ==
      Sorting.WithKey(KeyOf(parse), KeptRecords(parse, today, items, cfPath), k)
  {
    var kept := KeptRecords(parse, today, items, cfPath);
    Sorting.SortPermutes(KeyOf(parse), kept);
    Sorting.SortOrders(KeyOf(parse), kept);
    forall k
      ensures Sorting.WithKey(KeyOf(parse), JcrList(parse, today, items, cfPath), k) ==
        Sorting.WithKey(KeyOf(parse), kept, k)
    {
      Sorting.SortStable(KeyOf(parse), kept, k);
    }
  }

  // ---------------------------------------------------------------------------
  // The outcome of the JCR branch.

  datatype JcrOutcome = Listed(items: seq<Announcement>) | Failed(message: string)

  const ConnectionError := "無法連線至伺服器"
  const FolderError := "無法讀取公告資料夾"

  /** What the JCR branch yields for a folder path and the payload found. */
  function JcrOutcomeOf(parse: string -> Option<Dates.Instant>, today: Dates.CalendarDate, cfPath: string, data: Option<Json>): JcrOutcome {
    if UriCodec.Decode(cfPath).None? then Failed(ConnectionError)
    else if !Truthy(data) then Failed(FolderError)
    else Listed(JcrList(parse, today, DiscoveredItems(data.value), cfPath))
  }

  /** `fetchAnnouncementsJcr(cfPath)` from the parsed payload on; `data` is the
      payload of the first endpoint that answered, `None` when none did.
      Decoding the folder path throws before any request and ends in the
      connection error. */
  method JcrAnnouncements(host: Browser.Host, today: Dates.CalendarDate, cfPath: string, data: Option<Json>)
    returns (out: JcrOutcome)
    ensures UriCodec.Decode(cfPath).None? ==> out == Failed(ConnectionError)
    ensures UriCodec.Decode(cfPath).Some? && !Truthy(data) ==> out == Failed(FolderError)
    ensures UriCodec.Decode(cfPath).Some? && Truthy(data) ==>
      out == Listed(JcrList(host.parseDate, today, DiscoveredItems(data.value), cfPath))
  {
    if UriCodec.Decode(cfPath).None? {
      return Failed(ConnectionError);
    }
    if !Truthy(data) {
      return Failed(FolderError);
    }
    var items := DiscoverItems(data.value);
    out := Listed(JcrList(host.parseDate, today, items, cfPath));
  }
}
