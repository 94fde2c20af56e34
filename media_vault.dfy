/** The media source vault (`setupLazyLoading` and the attribute writes of
    `loadMedia`): an element's live `src`/`srcset` are moved into its dataset,
    where they lie dormant until the element comes near the viewport, and are
    written back from there. */
module MediaVault {
  import opened Optional
  import opened Dom

  /** The `{ originalSrc, originalSrcset }` record; either part may be missing. */
  datatype Sources = Sources(originalSrc: Option<string>, originalSrcset: Option<string>)

  /** What capturing yields: the new element state and the record, or `None` for `null`. */
  datatype Captured = Captured(state: ElementState, record: Option<Sources>)

  const MinPlaceholderHeight: real := 50.0

  /** The element already carries a dormant record: `data-src` or `data-srcset` is truthy. */
  predicate IsDormant(s: ElementState)
  {
    Truthy(Get(s.dataset, "src")) || Truthy(Get(s.dataset, "srcset"))
  }

  /** The record kept in the dataset. */
  function Stored(s: ElementState): Sources
  {
    Sources(Get(s.dataset, "src"), Get(s.dataset, "srcset"))
  }

  /** The source to defer: an image falls back to `currentSrc` when its `src`
      attribute is missing or empty; other elements have only the attribute. */
  function LiveSource(tag: string, currentSrc: string, s: ElementState): Option<string>
  {
    if tag == IMG then Or(Get(s.attrs, "src"), Some(currentSrc)) else Get(s.attrs, "src")
  }

  /** The whole move of a live source `src` (and a truthy `srcset`) into the
      dataset, as `t` shows it relative to `s`. */
  predicate Moved(s: ElementState, t: ElementState, src: string, srcset: Option<string>)
  {
    && t.dataset == (if Truthy(srcset) then s.dataset["src" := src]["srcset" := srcset.value] else s.dataset["src" := src])
    && t.attrs == (if Truthy(srcset) then s.attrs - {"src", "srcset"} else s.attrs - {"src"})["loading" := "lazy"]
    && t.style == s.style["min-height" := MinPlaceholderHeight]
    && t.classes == s.classes
    && t.calls == s.calls + [RemoveAttribute("src")]
                 + (if Truthy(srcset) then [RemoveAttribute("srcset")] else [])
                 + [SetAttribute("loading", "lazy")]
  }

  /** `setupLazyLoading(media)` on an element of tag `tag` in state `s`. */
  function Capture(tag: string, currentSrc: string, s: ElementState): (c: Captured)
    // An element that is already dormant is returned as it is, with its stored record.
    ensures IsDormant(s) ==> c == Captured(s, Some(Stored(s)))
    // `null` exactly when there is nothing to defer; then nothing changes.
    ensures c.record.None? <==> !IsDormant(s) && !Truthy(LiveSource(tag, currentSrc, s))
    ensures c.record.None? ==> c.state == s
    // Otherwise the element is dormant afterwards, and a fresh capture made the whole move.
    ensures c.record.Some? ==> IsDormant(c.state)
    ensures !IsDormant(s) && c.record.Some? ==>
      var src := LiveSource(tag, currentSrc, s);
      && c.record == Some(Sources(src, Get(s.attrs, "srcset")))
      && Moved(s, c.state, src.value, Get(s.attrs, "srcset"))
  {
    if IsDormant(s) then Captured(s, Some(Stored(s)))
    else
      var src := LiveSource(tag, currentSrc, s);
      var srcset := Get(s.attrs, "srcset");
      if !Truthy(src) then Captured(s, None)
      else
        var s1 := s.(dataset := s.dataset["src" := src.value]);
        var s2 := if Truthy(srcset) then s1.(dataset := s1.dataset["srcset" := srcset.value]) else s1;
        var s3 := WithoutAttribute(s2, "src");
        var s4 := if Truthy(srcset) then WithoutAttribute(s3, "srcset") else s3;
        var s5 := WithAttribute(s4, "loading", "lazy");
        Captured(s5.(style := s5.style["min-height" := MinPlaceholderHeight]), Some(Sources(src, srcset)))
  }

  /** Two records a consumer cannot tell apart: the same source and the same
      truthy source set (a missing and an empty source set both read as falsy). */
  predicate Equivalent(a: Sources, b: Sources)
  {
    && a.originalSrc == b.originalSrc
    && Truthy(a.originalSrcset) == Truthy(b.originalSrcset)
    && (Truthy(a.originalSrcset) ==> a.originalSrcset == b.originalSrcset)
  }

  /** Capturing again changes nothing and hands back a record equivalent to the first. */
  lemma CaptureIsIdempotent(tag: string, currentSrc: string, s: ElementState)
    requires Capture(tag, currentSrc, s).record.Some?
    ensures var c := Capture(tag, currentSrc, s);
      && Capture(tag, currentSrc, c.state) == c.(record := Some(Stored(c.state)))
      && Equivalent(c.record.value, Stored(c.state))
  {
    var c := Capture(tag, currentSrc, s);
    if !IsDormant(s) {
      var srcset := Get(s.attrs, "srcset");
      assert Get(c.state.dataset, "src") == LiveSource(tag, currentSrc, s);
      if !Truthy(srcset) {
        assert Get(c.state.dataset, "srcset") == Get(s.dataset, "srcset");
      }
    }
  }

  /** The attribute writes of `loadMedia` once its record is present: an image
      gets a truthy `srcset` before `src`; a video gets `src` and then `load()`;
      any other element is not touched. */
  function Restore(tag: string, s: ElementState, r: Sources): (t: ElementState)
    ensures t.dataset == s.dataset && t.style == s.style && t.classes == s.classes
    ensures tag == IMG ==>
      && t.attrs == (if Truthy(r.originalSrcset) then s.attrs["srcset" := r.originalSrcset.value] else s.attrs)["src" := AttrText(r.originalSrc)]
      && t.calls == s.calls
                    + (if Truthy(r.originalSrcset) then [SetAttribute("srcset", r.originalSrcset.value)] else [])
                    + [SetAttribute("src", AttrText(r.originalSrc))]
    ensures tag == VIDEO ==>
      && t.attrs == s.attrs["src" := AttrText(r.originalSrc)]
      && t.calls == s.calls + [SetAttribute("src", AttrText(r.originalSrc)), LoadVideo]
    ensures !IsMedia(tag) ==> t == s
  {
    if tag == IMG then
      var s1 := if Truthy(r.originalSrcset) then WithAttribute(s, "srcset", r.originalSrcset.value) else s;
      WithAttribute(s1, "src", AttrText(r.originalSrc))
    else if tag == VIDEO then
      var s1 := WithAttribute(s, "src", AttrText(r.originalSrc));
      s1.(calls := s1.calls + [LoadVideo])
    else s
  }

  /** Capturing and then restoring from the dataset gives an image back its
      source (the resolved one, when only `currentSrc` had it) and its source
      set; a video gets its source back but loses a truthy `srcset`. Apart from
      `loading=lazy`, no other attribute changes. */
  lemma CaptureRestoreRoundTrip(tag: string, currentSrc: string, s: ElementState)
    requires IsMedia(tag) && !IsDormant(s)
    requires Capture(tag, currentSrc, s).record.Some?
    ensures var c := Capture(tag, currentSrc, s).state;
      var t := Restore(tag, c, Stored(c));
      var src := LiveSource(tag, currentSrc, s).value;
      && (tag == IMG ==> t.attrs == s.attrs["src" := src]["loading" := "lazy"])
      && (tag == VIDEO ==> t.attrs == (if Truthy(Get(s.attrs, "srcset")) then s.attrs - {"srcset"} else s.attrs)["src" := src]["loading" := "lazy"])
  {
    var c := Capture(tag, currentSrc, s).state;
    var t := Restore(tag, c, Stored(c));
    var src := LiveSource(tag, currentSrc, s).value;
    var srcset := Get(s.attrs, "srcset");
    assert Stored(c).originalSrc == Some(src);
    if tag == IMG {
      if Truthy(srcset) {
        assert Stored(c).originalSrcset == srcset;
        assert t.attrs == s.attrs["src" := src]["loading" := "lazy"];
      } else {
        assert t.attrs == s.attrs["src" := src]["loading" := "lazy"];
      }
    } else {
      assert t.attrs == (if Truthy(srcset) then s.attrs - {"srcset"} else s.attrs)["src" := src]["loading" := "lazy"];
    }
  }

  /** Restoring a second time repeats the writes: nothing in the element
      remembers that its sources were already written back. */
  lemma RestoreTwiceWritesTwice(tag: string, s: ElementState, r: Sources)
    requires tag == IMG && !Truthy(r.originalSrcset)
    ensures var t := Restore(tag, Restore(tag, s, r), r);
      && t.attrs == Restore(tag, s, r).attrs
      && t.calls == s.calls + [SetAttribute("src", AttrText(r.originalSrc)), SetAttribute("src", AttrText(r.originalSrc))]
  {
  }

  /** `setupLazyLoading(media)`. */
  method SetupLazyLoading(media: Element) returns (r: Option<Sources>)
    modifies media
    ensures Captured(media.State(), r) == Capture(media.tagName, media.currentSrc, old(media.State()))
  {
    var data := Get(media.dataset, "src");
    var dataSet := Get(media.dataset, "srcset");
    if Truthy(data) || Truthy(dataSet) {
      return Some(Sources(data, dataSet));
    }
    var src := if media.tagName == IMG then Or(Get(media.attrs, "src"), Some(media.currentSrc)) else Get(media.attrs, "src");
    var srcset := Get(media.attrs, "srcset");
    if !Truthy(src) {
      // the diagnostic `console.warn` is not modelled
      return None;
    }
    media.SetData("src", src.value);
    if Truthy(srcset) {
      media.SetData("srcset", srcset.value);
    }
    media.RemoveAttribute("src");
    if Truthy(srcset) {
      media.RemoveAttribute("srcset");
    }
    media.SetAttribute("loading", "lazy");
    media.SetStyle("min-height", MinPlaceholderHeight);
    r := Some(Sources(src, srcset));
  }

  /** How `loadMedia` leaves its promise: rejected at once, or pending; a
      pending promise can settle only if load and error listeners were attached,
      which happens for images and videos. */
  datatype LoadStart = Rejected | Pending(listening: bool)

  /** `loadMedia(media, originalSources, cell)` up to the point where it waits
      for the browser. */
  method LoadMedia(media: Element, sources: Option<Sources>) returns (start: LoadStart)
    modifies media
    ensures sources.None? ==> start == Rejected && media.State() == old(media.State())
    ensures sources.Some? ==> start == Pending(IsMedia(media.tagName))
    ensures sources.Some? ==> media.State() == Restore(media.tagName, old(media.State()), sources.value)
  {
    if sources.None? {
      return Rejected;
    }
    var r := sources.value;
    if media.tagName == IMG {
      if Truthy(r.originalSrcset) {
        media.SetAttribute("srcset", r.originalSrcset.value);
      }
      media.SetAttribute("src", AttrText(r.originalSrc));
    } else if media.tagName == VIDEO {
      media.SetAttribute("src", AttrText(r.originalSrc));
      media.Load();
    }
    start := Pending(IsMedia(media.tagName));
  }
}
