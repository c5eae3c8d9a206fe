/** blocks/banner: the visibility of the main and sub buttons for a
    `buttonCount` state, and where each event takes that state from. */
module Banner {
  import opened Wrappers

  /** A descendant of the banner. Its tag, classes and attributes are fixed;
      its inline `display` and, for a select, its `value` change. */
  class Element {
    const tag: string
    const classes: set<string>
    const attributes: map<string, string>
    var display: string
    var value: string

    constructor (tag: string, classes: set<string>, attributes: map<string, string>, value: string)
      ensures this.tag == tag && this.classes == classes && this.attributes == attributes
      ensures this.display == [] && this.value == value
    {
      this.tag := tag;
      this.classes := classes;
      this.attributes := attributes;
      display := [];
      this.value := value;
    }
  }

  /** `querySelector`: the first element in document order that matches. */
  function FirstMatching(es: seq<Element>, p: Element -> bool): (r: Option<Element>)
    ensures r.None? <==> forall i :: 0 <= i < |es| ==> !p(es[i])
    ensures r.Some? ==> exists i :: (0 <= i < |es| && es[i] == r.value && p(es[i])
                                     && forall j :: 0 <= j < i ==> !p(es[j]))
  {
    if es == [] then None
    else if p(es[0]) then Some(es[0])
    else
      assert forall j :: 0 <= j < |es| - 1 ==> es[1..][j] == es[j + 1];
      FirstMatching(es[1..], p)
  }

  /** `querySelector('.<cls>') || querySelector('[<attr>]')` */
  function ByClassOrAttribute(es: seq<Element>, cls: string, attr: string): (r: Option<Element>)
    ensures r.Some? ==> r.value in es && (cls in r.value.classes || attr in r.value.attributes)
    ensures r.None? <==> forall i :: 0 <= i < |es| ==> cls !in es[i].classes && attr !in es[i].attributes
    ensures (exists i :: 0 <= i < |es| && cls in es[i].classes) ==> cls in r.value.classes
  {
    var byClass := FirstMatching(es, (e: Element) => cls in e.classes);
    if byClass.Some? then byClass else FirstMatching(es, (e: Element) => attr in e.attributes)
  }

  /** The decision table: the main button shows for `main-only` and
      `main-and-sub`, the sub button only for `main-and-sub`; `none` and every
      other string hide both. */
  predicate MainShown(state: string) {
    state == "main-only" || state == "main-and-sub"
  }

  predicate SubShown(state: string) {
    state == "main-and-sub"
  }

  /** The sub button is never shown without the main one. */
  lemma SubNeedsMain(state: string)
    ensures SubShown(state) ==> MainShown(state)
    ensures state != "main-only" && state != "main-and-sub" ==> !MainShown(state) && !SubShown(state)
  {
  }

  /** `visible ? '' : 'none'` */
  function DisplayFor(visible: bool): (d: string)
    ensures d == [] <==> visible
  {
    if visible then [] else "none"
  }

  /** The element, if there is one, as a frame. */
  function Present(el: Option<Element>): set<Element> {
    if el.Some? then {el.value} else {}
  }

  /** `setVisibility(el, visible)`: a missing element changes nothing, and
      only the inline `display` is written. */
  method SetVisibility(el: Option<Element>, visible: bool)
    modifies Present(el)`display
    ensures el.Some? ==> el.value.display == DisplayFor(visible)
  {
    if el.None? {
      return;
    }
    el.value.display := DisplayFor(visible);
  }

  /** `select && select.value` as a string, empty when there is no select. */
  function SelectValueOf(select: Option<Element>): string
    reads Present(select)
  {
    if select.Some? then select.value.value else []
  }

  /** `(select && select.value) || banner.getAttribute('data-button-count') || 'none'` */
  function InitialState(selectValue: string, attribute: Option<string>): (s: string)
    ensures s != []
    ensures selectValue != [] ==> s == selectValue
    ensures selectValue == [] && attribute.Some? && attribute.value != [] ==> s == attribute.value
    ensures selectValue == [] && (attribute.None? || attribute.value == []) ==> s == "none"
  {
    if selectValue != [] then selectValue
    else if attribute.Some? && attribute.value != [] then attribute.value
    else "none"
  }

  /** `banner.getAttribute('data-button-count') || (select && select.value) || 'none'` */
  function MutationState(selectValue: string, attribute: Option<string>): (s: string)
    ensures s != []
    ensures attribute.Some? && attribute.value != [] ==> s == attribute.value
    ensures (attribute.None? || attribute.value == []) && selectValue != [] ==> s == selectValue
    ensures selectValue == [] && (attribute.None? || attribute.value == []) ==> s == "none"
  {
    if attribute.Some? && attribute.value != [] then attribute.value
    else if selectValue != [] then selectValue
    else "none"
  }

  /** The two priority rules disagree exactly when the select and the
      attribute both hold a value and the values differ. */
  lemma InitialAndMutationDiffer(selectValue: string, attribute: Option<string>)
    ensures InitialState(selectValue, attribute) != MutationState(selectValue, attribute)
      <==> selectValue != [] && attribute.Some? && attribute.value != [] && selectValue != attribute.value
  {
  }

  /** One record of a `MutationObserver` batch. */
  datatype MutationRecord = MutationRecord(kind: string, attributeName: string)

  predicate ReappliesState(r: MutationRecord) {
    r.kind == "attributes" && r.attributeName == "data-button-count"
  }

  /** A `.banner` element with its descendants in document order and its
      `data-button-count` attribute, which an editing tool may change. */
  class BannerBlock {
    const descendants: seq<Element>
    var buttonCount: Option<string>

    constructor (descendants: seq<Element>, buttonCount: Option<string>)
      ensures this.descendants == descendants && this.buttonCount == buttonCount
    {
      this.descendants := descendants;
      this.buttonCount := buttonCount;
    }

    /** `.btn-primary`, else `[data-main-button]` */
    function MainButton(): Option<Element> {
      ByClassOrAttribute(descendants, "btn-primary", "data-main-button")
    }

    /** `.btn-secondary`, else `[data-sub-button]` */
    function SubButton(): Option<Element> {
      ByClassOrAttribute(descendants, "btn-secondary", "data-sub-button")
    }

    /** `select[name="buttonCount"]`, else `[data-button-count-select]` */
    function Select(): Option<Element> {
      var named := FirstMatching(descendants, (e: Element) => e.tag == "select" && "name" in e.attributes && e.attributes["name"] == "buttonCount");
      if named.Some? then named else FirstMatching(descendants, (e: Element) => "data-button-count-select" in e.attributes)
    }

    function Buttons(): set<Element> {
      Present(MainButton()) + Present(SubButton())
    }

    /** Both displays after a state is applied. Where one element is both the
        main and the sub button, the sub button's write comes last and wins. */
    ghost predicate Shows(state: string)
      reads Buttons()
    {
      && (SubButton().Some? ==> SubButton().value.display == DisplayFor(SubShown(state)))
      && (MainButton().Some? && MainButton() != SubButton() ==>
            MainButton().value.display == DisplayFor(MainShown(state)))
    }

    /** `applyButtonState(banner, state)`: both displays are set outright, so
        the result does not depend on what was shown before. */
    method ApplyButtonState(state: string)
      modifies Buttons()`display
      ensures Shows(state)
    {
      var main := MainButton();
      var sub := SubButton();
      if state == "main-only" {
        SetVisibility(main, true);
        SetVisibility(sub, false);
      } else if state == "main-and-sub" {
        SetVisibility(main, true);
        SetVisibility(sub, true);
      } else {
        SetVisibility(main, false);
        SetVisibility(sub, false);
      }
    }

    /** `initBanner(banner)`: the select's value, else the attribute, else `none`. */
    method Init()
      modifies Buttons()`display
      ensures Shows(InitialState(old(SelectValueOf(Select())), buttonCount))
    {
      var initial := InitialState(SelectValueOf(Select()), buttonCount);
      ApplyButtonState(initial);
    }

    /** The `change` listener, registered only when there is a select. */
    method OnSelectChange()
      requires Select().Some?
      modifies Buttons()`display
      ensures Shows(old(Select().value.value))
    {
      ApplyButtonState(Select().value.value);
    }

    /** The `MutationObserver` callback: every `data-button-count` attribute
        record applies the attribute, else the select's value, else `none`;
        other records change nothing, and several such records in one batch
        leave the same state as one. */
    method OnMutations(records: seq<MutationRecord>)
      modifies Buttons()`display
      ensures (exists i :: 0 <= i < |records| && ReappliesState(records[i])) ==>
        Shows(MutationState(old(SelectValueOf(Select())), buttonCount))
      ensures (forall i :: 0 <= i < |records| ==> !ReappliesState(records[i])) ==>
        forall e :: e in Buttons() ==> e.display == old(e.display)
    {
      var state := MutationState(SelectValueOf(Select()), buttonCount);
      var applied := false;
      var i := 0;
      while i < |records|
        invariant 0 <= i <= |records|
        invariant applied <==> exists j :: 0 <= j < i && ReappliesState(records[j])
        invariant applied ==> Shows(state)
        invariant !applied ==> forall e :: e in Buttons() ==> e.display == old(e.display)
      {
        if ReappliesState(records[i]) {
          ApplyButtonState(state);
          applied := true;
        }
        i := i + 1;
      }
    }
  }
}
