/** blocks/tags: one tag link per row of the block, rebuilt inside a single
    `tags-container`. */
module Tags {
  import opened Wrappers

  /** An `<a>`: its text content and its `href` attribute as written, `None`
      when the element has no such attribute. */
  datatype Link = Link(text: string, href: Option<string>)

  /** A child of the block: an authored row, with its text content and its
      first link, or a container of `a.tag` links left by an earlier
      decoration. */
  datatype Child =
    | Row(text: string, firstLink: Option<Link>)
    | Container(className: string, links: seq<Link>)

  /** The `{ text, href }` read from a row. */
  datatype Tag = Tag(text: string, href: string)

  function Concat(ss: seq<string>): string {
    if ss == [] then [] else ss[0] + Concat(ss[1..])
  }

  /** `row.textContent`: a container's text is that of its links in order. */
  function TextContent(c: Child): string {
    match c
    case Row(text, _) => text
    case Container(_, links) => Concat(seq(|links|, i requires 0 <= i < |links| => links[i].text))
  }

  /** `row.querySelector('a')` */
  function FirstLink(c: Child): (r: Option<Link>)
    ensures c.Container? ==> (r.Some? <==> c.links != [])
    ensures c.Container? && c.links != [] ==> r == Some(c.links[0])
  {
    match c
    case Row(_, link) => link
    case Container(_, links) => if links == [] then None else Some(links[0])
  }

  /** `link.href`: the attribute resolved against the page URL (the
      `resolve` parameter), or the empty string when there is no attribute. */
  function HrefOf(resolve: string -> string, link: Link): (r: string)
    ensures link.href.None? ==> r == []
    ensures link.href.Some? ==> r == resolve(link.href.value)
  {
    match link.href
    case None => []
    case Some(a) => resolve(a)
  }

  /** A row with a link gives the link's text and its `href` property; a row
      without one gives its own text and `#`. */
  function TagOf(resolve: string -> string, c: Child): (t: Tag)
    ensures FirstLink(c).Some? ==> t.text == FirstLink(c).value.text
    ensures FirstLink(c).Some? && FirstLink(c).value.href.Some? ==> t.href == resolve(FirstLink(c).value.href.value)
    ensures FirstLink(c).Some? && FirstLink(c).value.href.None? ==> t.href == []
    ensures FirstLink(c).None? ==> t == Tag(TextContent(c), "#")
  {
    match FirstLink(c)
    case Some(link) => Tag(link.text, HrefOf(resolve, link))
    case None => Tag(TextContent(c), "#")
  }

  /** `[...block.children].map(...)`: one tag per child, in order. */
  function TagsOf(resolve: string -> string, children: seq<Child>): (ts: seq<Tag>)
    ensures |ts| == |children|
    ensures forall i :: 0 <= i < |children| ==> ts[i] == TagOf(resolve, children[i])
  {
    seq(|children|, i requires 0 <= i < |children| => TagOf(resolve, children[i]))
  }

  const ContainerClass := "tags-container"

  /** The `a.tag` element built for a tag: assigning `href` sets the attribute
      to the tag's `href`. */
  function TagLink(t: Tag): Link {
    Link(t.text, Some(t.href))
  }

  /** The block element; `children` are its child elements. */
  class TagsBlock {
    var children: seq<Child>

    constructor (children: seq<Child>)
      ensures this.children == children
    {
      this.children := children;
    }

    /** `decorate(block)`: the tags are read first, the old content is removed
        and a single `tags-container` receives one link per tag, in order. */
    method Decorate(resolve: string -> string)
      modifies this
      ensures |children| == 1 && children[0].Container? && children[0].className == ContainerClass
      ensures |children[0].links| == |old(children)|
      ensures forall i :: 0 <= i < |old(children)| ==> children[0].links[i] == TagLink(TagOf(resolve, old(children)[i]))
    {
      var tags := TagsOf(resolve, children);
      children := [];
      var container: seq<Link> := [];
      var i := 0;
      while i < |tags|
        invariant 0 <= i <= |tags|
        invariant |container| == i
        invariant forall j :: 0 <= j < i ==> container[j] == TagLink(tags[j])
      {
        container := container + [TagLink(tags[i])];
        i := i + 1;
      }
      children := [Container(ContainerClass, container)];
    }
  }

  /** A decorated block holds one container, so decorating it again leaves
      one tag: the first tag with its `href` read back through the page URL
      (for a first row without a link, the resolution of `#`; for a first link
      without an `href` attribute, the resolution of the empty string), or, when there
      were no rows, no link at all and an `href` of `#`. */
  lemma DecorateAgain(resolve: string -> string, rows: seq<Child>)
    ensures var once := Container(ContainerClass, seq(|rows|, i requires 0 <= i < |rows| => TagLink(TagOf(resolve, rows[i]))));
      && (rows != [] ==> TagsOf(resolve, [once]) == [Tag(TagOf(resolve, rows[0]).text, resolve(TagOf(resolve, rows[0]).href))])
      && (rows != [] && FirstLink(rows[0]).None? ==> TagsOf(resolve, [once])[0].href == resolve("#"))
      && (rows != [] && FirstLink(rows[0]).Some? && FirstLink(rows[0]).value.href.None? ==> TagsOf(resolve, [once])[0].href == resolve([]))
      && (rows == [] ==> TagsOf(resolve, [once]) == [Tag([], "#")])
  {
  }
}
