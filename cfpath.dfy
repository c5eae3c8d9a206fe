/** `extractCfPath` and `ensureDecodedCfPath` of blocks/announcement: finding the
    content-fragment folder path an author entered, and decoding it once. */
module CfPath {
  import opened Wrappers
  import opened JsText
  import UriCodec

  const ContentPrefix := "/content/"

  /** The first `<a>` inside a property element: its `href` attribute (`None`
      when absent), the resolved `link.href`, its `data-value` and `data-href`
      attributes (which `dataset.value` and `dataset.href` reflect) and its text. */
  datatype Anchor = Anchor(
    hrefAttr: Option<string>,
    href: string,
    dataValue: Option<string>,
    dataHref: Option<string>,
    text: string)

  /** An element carrying the `cfPath` property. */
  datatype PropElement = PropElement(
    link: Option<Anchor>,
    dataValue: Option<string>,
    dataHref: Option<string>,
    text: string)

  /** The candidate values in the order the script pushes them. */
  function Candidates(el: PropElement): (r: seq<Option<string>>)
    ensures |r| == (if el.link.Some? then 12 else 5)
    ensures el.link.Some? ==>
      r[0] == el.link.value.hrefAttr && r[1] == Some(el.link.value.href) && r[6] == Some(Trim(el.link.value.text))
    ensures r[|r| - 5] == el.dataValue && r[|r| - 4] == el.dataHref && r[|r| - 1] == Some(Trim(el.text))
  {
    var own := [el.dataValue, el.dataHref, el.dataValue, el.dataHref, Some(Trim(el.text))];
    match el.link
    case None => own
    case Some(a) =>
      [a.hrefAttr, Some(a.href), a.dataValue, a.dataHref, a.dataValue, a.dataHref, Some(Trim(a.text))] + own
  }

  /** `.filter(Boolean).map((v) => v.toString().trim())` */
  function Normalize(cands: seq<Option<string>>): (r: seq<string>)
    ensures |r| <= |cands|
    ensures forall c :: c in cands && c.Some? && c.value != [] ==> Trim(c.value) in r
    ensures forall v :: v in r ==> exists c :: c in cands && c.Some? && c.value != [] && v == Trim(c.value)
  {
    if cands == [] then []
    else if cands[0].Some? && cands[0].value != [] then [Trim(cands[0].value)] + Normalize(cands[1..])
    else Normalize(cands[1..])
  }

  /** Normalising keeps the candidates' order: it distributes over
      concatenation, drops a falsy candidate and trims a truthy one. */
  lemma {:induction false} NormalizeAppend(a: seq<Option<string>>, b: seq<Option<string>>)
    ensures Normalize(a + b) == Normalize(a) + Normalize(b)
  {
    if a == [] {
      assert a + b == b;
    } else {
      assert (a + b)[0] == a[0];
      assert (a + b)[1..] == a[1..] + b;
      NormalizeAppend(a[1..], b);
    }
  }

  lemma NormalizeOne(c: Option<string>)
    ensures Normalize([c]) == (if c.Some? && c.value != [] then [Trim(c.value)] else [])
  {
    assert [c][1..] == [];
  }

  /** Characters at which `split(/[\s"']+/)` cuts. */
  predicate IsBreak(c: char) {
    IsWhite(c) || c == '"' || c == '\''
  }

  /** `s.split(/[\s"']+/)[0]` for a string that does not start with a break. */
  function UpToBreak(s: string): (r: string)
    ensures |r| <= |s| && r == s[..|r|]
    ensures forall i :: 0 <= i < |r| ==> !IsBreak(r[i])
    ensures |r| == |s| || IsBreak(s[|r|])
  {
    if s == [] || IsBreak(s[0]) then [] else [s[0]] + UpToBreak(s[1..])
  }

  /** Cutting a string that starts with the content prefix keeps that prefix. */
  lemma UpToBreakKeepsPrefix(s: string)
    requires StartsWith(s, ContentPrefix)
    ensures StartsWith(UpToBreak(s), ContentPrefix)
  {
  }

  /** The normalised candidates of an element, in order. */
  function Values(el: PropElement): seq<string> {
    Normalize(Candidates(el))
  }

  /** What `extractCfPath` promises of its result `r` for the candidate values
      `vs`: `r` is empty exactly when no value contains `/content/`, and
      otherwise starts with it; the first value that starts with `/content/` is
      taken whole; failing that, the first value that contains it is cut from
      its first `/content/` up to the first white space or quote. */
  ghost predicate PicksContentPath(vs: seq<string>, r: string) {
    && (r == [] <==> forall j :: 0 <= j < |vs| ==> !Contains(vs[j], ContentPrefix))
    && (r != [] ==> StartsWith(r, ContentPrefix))
    && ((exists j :: 0 <= j < |vs| && StartsWith(vs[j], ContentPrefix)) ==>
          exists j :: 0 <= j < |vs| && StartsWith(vs[j], ContentPrefix) && r == vs[j]
            && forall k :: 0 <= k < j ==> !StartsWith(vs[k], ContentPrefix))
    && ((forall j :: 0 <= j < |vs| ==> !StartsWith(vs[j], ContentPrefix)) ==>
          (forall i :: 0 <= i < |r| ==> !IsBreak(r[i]))
          && (r != [] ==> exists j :: (0 <= j < |vs| && Contains(vs[j], ContentPrefix)
                                        && (forall k :: 0 <= k < j ==> !Contains(vs[k], ContentPrefix))
                                        && r == UpToBreak(vs[j][IndexOf(vs[j], ContentPrefix).value..]))))
  }

  /** `extractCfPath(el)`; a missing element gives the empty string. */
  method ExtractCfPath(el: Option<PropElement>) returns (r: string)
    ensures el.None? ==> r == []
    ensures el.Some? ==> PicksContentPath(Values(el.value), r)
  {
    if el.None? {
      return [];
    }
    r := PickContentPath(Values(el.value));
  }

  /** The two scans of `extractCfPath` over the normalised candidates: the
      `find` for a value starting with `/content/`, then the index loop. */
  method PickContentPath(normalized: seq<string>) returns (r: string)
    ensures PicksContentPath(normalized, r)
  {
    var i := 0;
    while i < |normalized|
      invariant 0 <= i <= |normalized|
      invariant forall j :: 0 <= j < i ==> !StartsWith(normalized[j], ContentPrefix)
    {
      if StartsWith(normalized[i], ContentPrefix) {
        assert OccursAt(normalized[i], ContentPrefix, 0);
        assert Contains(normalized[i], ContentPrefix);
        return normalized[i];
      }
      i := i + 1;
    }
    i := 0;
    while i < |normalized|
      invariant 0 <= i <= |normalized|
      invariant forall j :: 0 <= j < i ==> !Contains(normalized[j], ContentPrefix)
    {
      var v := normalized[i];
      var idx := IndexOf(v, ContentPrefix);
      if idx.Some? {
        assert v[idx.value..][..|ContentPrefix|] == v[idx.value..idx.value + |ContentPrefix|];
        UpToBreakKeepsPrefix(v[idx.value..]);
        return UpToBreak(v[idx.value..]);
      }
      i := i + 1;
    }
    return [];
  }

  /** `ensureDecodedCfPath(cfPath)`: an empty path stays empty; a path with a
      `%HH` escape is decoded once when it decodes and kept as it is when
      `decodeURIComponent` throws; any other path is kept as it is. */
  function EnsureDecoded(cfPath: string): (r: string)
    ensures cfPath == [] ==> r == []
    ensures !UriCodec.HasEscape(cfPath) ==> r == cfPath
    ensures UriCodec.HasEscape(cfPath) && UriCodec.Decode(cfPath).None? ==> r == cfPath
    ensures UriCodec.HasEscape(cfPath) && UriCodec.Decode(cfPath).Some? ==> r == UriCodec.Decode(cfPath).value
  {
    if cfPath == [] then []
    else if UriCodec.HasEscape(cfPath) then UriCodec.Decode(cfPath).GetOr(cfPath)
    else cfPath
  }

  /** Decoding happens once, not until no escape is left: `%2541` (an escaped
      `%` followed by `41`) becomes `%41`, which still holds an escape. */
  lemma EnsureDecodedOnce()
    ensures EnsureDecoded("%2541") == "%41"
    ensures UriCodec.HasEscape(EnsureDecoded("%2541"))
  {
    var t := "%2541";
    assert UriCodec.HasEscape(t) by {
      assert t[0] == '%' && UriCodec.IsHex(t[1]) && UriCodec.IsHex(t[2]);
    }
    assert UriCodec.EscapedByte(t) == Some(0x25);
    assert UriCodec.LeadingOnes(0x25) == 0;
    UriCodec.DecodePlain("41");
    assert t[3..] == "41";
    assert (0x25 as char) == '%';
    assert UriCodec.Decode(t) == UriCodec.Cons('%', UriCodec.Decode("41"));
    assert ['%'] + "41" == "%41";
    var r := "%41";
    assert r[0] == '%' && UriCodec.IsHex(r[1]) && UriCodec.IsHex(r[2]);
  }
}
