/** The part of a DOM element that the media loader and the grid auditor read and
    write: its attributes, its `dataset` (the `data-*` attributes), its inline
    style, its class list, and the order of the calls that make the browser fetch. */
module Dom {
  import opened Optional

  const IMG := "IMG"
  const VIDEO := "VIDEO"

  /** The two tag names the loader selects with `querySelectorAll("img, video")`. */
  predicate IsMedia(tag: string)
  {
    tag == IMG || tag == VIDEO
  }

  /** JavaScript truthiness of a string that may be missing: `undefined`, `null`
      and the empty string are falsy. */
  predicate Truthy(v: Option<string>)
  {
    v.Some? && v.value != ""
  }

  /** `a || b` on strings that may be missing. */
  function Or(a: Option<string>, b: Option<string>): Option<string>
  {
    if Truthy(a) then a else b
  }

  /** The text `setAttribute` stores for a value: a missing value is stringified
      to "undefined". */
  function AttrText(v: Option<string>): string
  {
    if v.Some? then v.value else "undefined"
  }

  /** `getAttribute(key)` or `dataset[key]`. */
  function Get(m: map<string, string>, key: string): (v: Option<string>)
    ensures v.Some? <==> key in m
    ensures v.Some? ==> m[key] == v.value
  {
    if key in m then Some(m[key]) else None
  }

  /** A call whose order the browser observes: writing `src` or `srcset` starts a
      fetch, and `load()` restarts a video's resource selection. */
  datatype Call = SetAttribute(name: string, value: string) | RemoveAttribute(name: string) | LoadVideo

  /** An element's mutable state as a value. Inline style lengths are in pixels. */
  datatype ElementState = ElementState(
    attrs: map<string, string>,
    dataset: map<string, string>,
    style: map<string, real>,
    classes: set<string>,
    calls: seq<Call>)

  /** The state after `setAttribute(name, value)`. */
  function WithAttribute(s: ElementState, name: string, value: string): ElementState
  {
    s.(attrs := s.attrs[name := value], calls := s.calls + [SetAttribute(name, value)])
  }

  /** The state after `removeAttribute(name)`. */
  function WithoutAttribute(s: ElementState, name: string): ElementState
  {
    s.(attrs := s.attrs - {name}, calls := s.calls + [RemoveAttribute(name)])
  }

  /** A DOM element. Its tag name never changes; `currentSrc` is the source the
      browser resolved for it (meaningful for images). */
  class Element {
    const tagName: string
    const currentSrc: string
    var attrs: map<string, string>
    var dataset: map<string, string>
    var style: map<string, real>
    var classes: set<string>
    var calls: seq<Call>

    function State(): ElementState
      reads this
    {
      ElementState(attrs, dataset, style, classes, calls)
    }

    constructor (tagName: string, currentSrc: string, s: ElementState)
      ensures this.tagName == tagName && this.currentSrc == currentSrc && State() == s
    {
      this.tagName := tagName;
      this.currentSrc := currentSrc;
      attrs, dataset, style, classes, calls := s.attrs, s.dataset, s.style, s.classes, s.calls;
    }

    method SetAttribute(name: string, value: string)
      modifies this
      ensures State() == WithAttribute(old(State()), name, value)
    {
      attrs := attrs[name := value];
      calls := calls + [Call.SetAttribute(name, value)];
    }

    method RemoveAttribute(name: string)
      modifies this
      ensures State() == WithoutAttribute(old(State()), name)
    {
      attrs := attrs - {name};
      calls := calls + [Call.RemoveAttribute(name)];
    }

    /** `HTMLMediaElement.load()`. */
    method Load()
      modifies this
      ensures State() == old(State()).(calls := old(calls) + [LoadVideo])
    {
      calls := calls + [LoadVideo];
    }

    /** `dataset[key] = value`. */
    method SetData(key: string, value: string)
      modifies this
      ensures State() == old(State()).(dataset := old(dataset)[key := value])
    {
      dataset := dataset[key := value];
    }

    /** `style.setProperty(property, px + "px")`. */
    method SetStyle(property: string, px: real)
      modifies this
      ensures State() == old(State()).(style := old(style)[property := px])
    {
      style := style[property := px];
    }

    /** `classList.add(name)`. */
    method AddClass(name: string)
      modifies this
      ensures State() == old(State()).(classes := old(classes) + {name})
    {
      classes := classes + {name};
    }

    /** `classList.remove(name)`. */
    method RemoveClass(name: string)
      modifies this
      ensures State() == old(State()).(classes := old(classes) - {name})
    {
      classes := classes - {name};
    }
  }
}
