/** The page's media loading (`initializePage`'s media loop and the
    IntersectionObserver callback): every image and video is either captured
    and watched, or loaded at once; a watched element moves
    `Dormant -> Proximate -> Loaded | Failed`, and leaves the observer only when
    its load has settled. */
module MediaLoader {
  import opened Optional
  import opened Dom
  import opened GridSnap
  import opened MediaVault

  /** Where a watched element stands. `Proximate` holds one record per
      intersection whose load has not settled yet, in the order they began. */
  datatype Phase = Dormant | Proximate(pending: seq<Sources>) | Loaded | Failed
  {
    predicate Observed() { Dormant? || Proximate? }
  }

  /** What one settled load does to the element: success sizes it; failure
      writes the record's source back as `src` and then sizes it. */
  function SettleOne(tag: string, ok: bool, m: Measured, cellHeight: real, s: ElementState, r: Sources): (t: ElementState)
    requires cellHeight > 0.0
    ensures t.dataset == s.dataset && t.classes == s.classes
    ensures ok ==> t == Sized(tag, m, cellHeight, s)
    ensures !ok ==> (&& t.attrs == s.attrs["src" := AttrText(r.originalSrc)]
                     && t.calls == s.calls + [SetAttribute("src", AttrText(r.originalSrc))])
  {
    if ok then Sized(tag, m, cellHeight, s)
    else Sized(tag, m, cellHeight, WithAttribute(s, "src", AttrText(r.originalSrc)))
  }

  /** One load event settles every pending load of the element, oldest first. */
  function Settled(tag: string, ok: bool, m: Measured, cellHeight: real, s: ElementState, pending: seq<Sources>): (t: ElementState)
    requires cellHeight > 0.0
    ensures t.dataset == s.dataset && t.classes == s.classes
    ensures |t.calls| == |s.calls| + (if ok then 0 else |pending|)
    ensures t.calls[..|s.calls|] == s.calls
    ensures ok ==> t.calls == s.calls
    ensures !ok ==> forall i :: 0 <= i < |pending| ==>
      t.calls[|s.calls| + i] == SetAttribute("src", AttrText(pending[i].originalSrc))
    decreases |pending|
  {
    if pending == [] then s
    else
      var init := pending[..|pending| - 1];
      var t := Settled(tag, ok, m, cellHeight, s, init);
      assert forall i :: 0 <= i < |init| ==> init[i] == pending[i];
      SettleOne(tag, ok, m, cellHeight, t, pending[|pending| - 1])
  }

  /** Settling loads that all carry the record `r`: a success leaves the element
      sized once over; a failure leaves `src` equal to the record's source, the
      element sized, and one `src` write per pending load. */
  lemma {:induction false} SettledOutcome(tag: string, ok: bool, m: Measured, cellHeight: real, s: ElementState, pending: seq<Sources>, r: Sources)
    requires cellHeight > 0.0
    requires pending != [] && forall i :: 0 <= i < |pending| ==> pending[i] == r
    ensures var t := Settled(tag, ok, m, cellHeight, s, pending);
      && t.style == SizedStyle(tag, m, cellHeight, s.style)
      && (ok ==> t == Sized(tag, m, cellHeight, s))
      && (!ok ==> t.attrs == s.attrs["src" := AttrText(r.originalSrc)])
      && (!ok ==> forall i :: |s.calls| <= i < |t.calls| ==> t.calls[i] == SetAttribute("src", AttrText(r.originalSrc)))
    decreases |pending|
  {
    var init := pending[..|pending| - 1];
    var t0 := Settled(tag, ok, m, cellHeight, s, init);
    var t := Settled(tag, ok, m, cellHeight, s, pending);
    assert t == SettleOne(tag, ok, m, cellHeight, t0, r);
    if init == [] {
      assert t0 == s;
    } else {
      SettledOutcome(tag, ok, m, cellHeight, s, init, r);
      if ok {
        assert t0 == Sized(tag, m, cellHeight, s);
        SizingIsIdempotent(tag, m, cellHeight, s);
      } else {
        var w := WithAttribute(t0, "src", AttrText(r.originalSrc));
        assert t == Sized(tag, m, cellHeight, w);
        assert w.style == SizedStyle(tag, m, cellHeight, s.style);
        SizingIsIdempotent(tag, m, cellHeight, w.(style := s.style));
      }
    }
  }

  /** The element after `k` intersections before its load settles: each one
      writes the record back again. */
  function RestoredTimes(tag: string, s: ElementState, r: Sources, k: nat): (t: ElementState)
    ensures t.dataset == s.dataset && t.style == s.style && t.classes == s.classes
    ensures IsMedia(tag) && k > 0 ==> "src" in t.attrs && t.attrs["src"] == AttrText(r.originalSrc)
    ensures !IsMedia(tag) ==> t == s
  {
    if k == 0 then s else Restore(tag, RestoredTimes(tag, s, r, k - 1), r)
  }

  /** The whole intersection-to-settlement path for a freshly captured media
      element that intersects one or more times and whose load then fails: its
      `src` ends up as the source it had before capture (an image's resolved
      `currentSrc` when the attribute was empty), its dataset is kept, and
      sizing has been applied. */
  lemma FailedLoadRestoresCapturedSource(tag: string, currentSrc: string, m: Measured, cellHeight: real, s: ElementState, intersections: nat)
    requires cellHeight > 0.0 && IsMedia(tag) && !IsDormant(s) && intersections > 0
    requires Capture(tag, currentSrc, s).record.Some?
    ensures var c := Capture(tag, currentSrc, s).state;
      var r := Stored(c);
      var t := Settled(tag, false, m, cellHeight, RestoredTimes(tag, c, r, intersections), seq(intersections, _ => r));
      && "src" in t.attrs && t.attrs["src"] == LiveSource(tag, currentSrc, s).value
      && t.dataset == c.dataset
      && t.style == SizedStyle(tag, m, cellHeight, c.style)
  {
    var c := Capture(tag, currentSrc, s).state;
    var r := Stored(c);
    assert r.originalSrc == LiveSource(tag, currentSrc, s);
    SettledOutcome(tag, false, m, cellHeight, RestoredTimes(tag, c, r, intersections), seq(intersections, _ => r), r);
  }

  /** The `src` written on the eager path, `dataset.src || ''`: for an element
      with no dormant record this is always the empty string. */
  function EagerSource(s: ElementState): (src: string)
    ensures !IsDormant(s) ==> src == ""
    ensures Truthy(Get(s.dataset, "src")) ==> src == s.dataset["src"]
  {
    Or(Get(s.dataset, "src"), Some("")).value
  }

  /** The state of an element that the media loop could not capture. */
  function Eager(tag: string, m: Measured, cellHeight: real, s: ElementState): (t: ElementState)
    requires cellHeight > 0.0
    ensures t.attrs == s.attrs["src" := EagerSource(s)] && t.calls == s.calls + [SetAttribute("src", EagerSource(s))]
    ensures t.dataset == s.dataset && t.classes == s.classes && t.style == SizedStyle(tag, m, cellHeight, s.style)
    ensures !IsDormant(s) ==> t.attrs["src"] == ""
  {
    Sized(tag, m, cellHeight, WithAttribute(s, "src", EagerSource(s)))
  }

  /** What the media loop does to one element: the captured state, or the eager
      load; the flag says whether the element is now watched. */
  function Initialized(tag: string, currentSrc: string, m: Measured, cellHeight: real, s: ElementState): (r: (ElementState, bool))
    requires cellHeight > 0.0
    ensures r.1 <==> IsDormant(s) || Truthy(LiveSource(tag, currentSrc, s))
    ensures r.1 ==> IsDormant(r.0)
  {
    var c := Capture(tag, currentSrc, s);
    if c.record.Some? then (c.state, true) else (Eager(tag, m, cellHeight, s), false)
  }

  /** An element without any source gets an empty `src` and is sized; a
      watched element that was not dormant before has no live `src`. */
  lemma InitializedOutcome(tag: string, currentSrc: string, m: Measured, cellHeight: real, s: ElementState)
    requires cellHeight > 0.0
    ensures var (t, watched) := Initialized(tag, currentSrc, m, cellHeight, s);
      && (!watched ==> t.attrs == s.attrs["src" := ""] && t.calls == s.calls + [SetAttribute("src", "")]
                       && t.style == SizedStyle(tag, m, cellHeight, s.style))
      && (watched && !IsDormant(s) ==> "src" !in t.attrs)
  {
  }

  /** An IntersectionObserver created by one run of `initializePage`, with the
      grid cell its callback closes over. */
  class MediaObserver {
    const cell: GridCell
    var phase: map<Element, Phase>

    /** The elements the observer is still watching. */
    function Observed(): set<Element>
      reads this
    {
      set e | e in phase && phase[e].Observed()
    }

    predicate Valid()
      reads this
    {
      && cell.height > 0.0
      && (forall e :: e in phase ==> IsMedia(e.tagName))
      && (forall e :: e in phase && phase[e].Proximate? ==> phase[e].pending != [])
    }

    constructor (cell: GridCell)
      requires cell.height > 0.0
      ensures this.cell == cell && phase == map[] && Valid()
    {
      this.cell := cell;
      phase := map[];
    }

    /** `observer.observe(media)`. */
    method Observe(media: Element)
      requires Valid() && IsMedia(media.tagName) && media !in phase
      modifies this
      ensures Valid() && phase == old(phase)[media := Dormant]
    {
      phase := phase[media := Dormant];
    }

    /** The callback for one entry. An intersecting element has its sources
        written back from the dataset and a load begins; the element stays
        observed until that load settles, so a second intersection before then
        writes the sources again and adds a second pending load. */
    method OnEntry(media: Element, isIntersecting: bool)
      requires Valid() && media in Observed()
      modifies this, media
      ensures Valid()
      ensures !isIntersecting ==> phase == old(phase) && media.State() == old(media.State())
      ensures isIntersecting ==>
        var r := Stored(old(media.State()));
        var before := if old(phase[media]).Proximate? then old(phase[media]).pending else [];
        && media.State() == Restore(media.tagName, old(media.State()), r)
        && phase == old(phase)[media := Proximate(before + [r])]
        && media in Observed()
    {
      if isIntersecting {
        var r := Sources(Get(media.dataset, "src"), Get(media.dataset, "srcset"));
        var start := LoadMedia(media, Some(r));
        var before := if phase[media].Proximate? then phase[media].pending else [];
        phase := phase[media := Proximate(before + [r])];
      }
    }

    /** The element's `load` (or `loadeddata`) event when `ok`, its `error`
        event otherwise: every pending load settles in the order it began
        (`handleMediaDimensions` on success; on failure the record's source is
        written as `src` and then sizing runs), and then the element is
        unobserved. `m` is what the browser measures at that moment. */
    method OnLoadSettled(media: Element, ok: bool, m: Measured)
      requires Valid() && media in phase && phase[media].Proximate?
      modifies this, media
      ensures Valid()
      ensures media.State() == Settled(media.tagName, ok, m, cell.height, old(media.State()), old(phase[media]).pending)
      ensures phase == old(phase)[media := if ok then Loaded else Failed]
      ensures media !in Observed()
    {
      var pending := phase[media].pending;
      ghost var s := media.State();
      for i := 0 to |pending|
        invariant media.State() == Settled(media.tagName, ok, m, cell.height, s, pending[..i])
        invariant phase == old(phase)
      {
        assert pending[..i + 1][..i] == pending[..i];
        if ok {
          HandleMediaDimensions(media, m, cell);
        } else {
          media.SetAttribute("src", AttrText(pending[i].originalSrc));
          HandleMediaDimensions(media, m, cell);
        }
      }
      assert pending[..|pending|] == pending;
      phase := phase[media := if ok then Loaded else Failed];
    }
  }

  /** The media loop of `initializePage`: each image and video is captured and
      observed, or, when it has no source at all, loaded eagerly and sized.
      `measured[i]` is what the browser reports for `medias[i]`. */
  method InitializeMedia(medias: seq<Element>, measured: seq<Measured>, cell: GridCell) returns (observer: MediaObserver)
    requires cell.height > 0.0 && |measured| == |medias|
    requires forall i :: 0 <= i < |medias| ==> IsMedia(medias[i].tagName)
    requires forall i, j :: 0 <= i < j < |medias| ==> medias[i] != medias[j]
    modifies set e | e in medias
    ensures fresh(observer) && observer.Valid() && observer.cell == cell
    ensures forall i :: 0 <= i < |medias| ==>
      var (t, watched) := Initialized(medias[i].tagName, medias[i].currentSrc, measured[i], cell.height, old(medias[i].State()));
      && medias[i].State() == t
      && (watched <==> medias[i] in observer.phase)
    ensures forall e :: e in observer.phase ==> e in medias && observer.phase[e] == Dormant
  {
    observer := new MediaObserver(cell);
    ghost var before := seq(|medias|, j requires 0 <= j < |medias| reads medias => medias[j].State());
    ghost var outcome := seq(|medias|, j requires 0 <= j < |medias| =>
      Initialized(medias[j].tagName, medias[j].currentSrc, measured[j], cell.height, before[j]));
    for i := 0 to |medias|
      invariant fresh(observer) && observer.Valid() && observer.cell == cell
      invariant StatesUpTo(medias, before, outcome, i)
      invariant WatchedUpTo(medias, outcome, observer.phase, i)
    {
      InitializeNext(medias, before, outcome, measured, observer, i);
    }
  }

  /** The elements before position `i` have reached their `outcome` from the
      media loop; the rest are as they were. */
  predicate StatesUpTo(medias: seq<Element>, before: seq<ElementState>, outcome: seq<(ElementState, bool)>, i: nat)
    requires |before| == |medias| == |outcome| && i <= |medias|
    reads medias
  {
    && (forall j :: 0 <= j < i ==> medias[j].State() == outcome[j].0)
    && (forall j :: i <= j < |medias| ==> medias[j].State() == before[j])
  }

  /** Exactly those elements before position `i` that the media loop captured
      are watched, all of them dormant. */
  predicate WatchedUpTo(medias: seq<Element>, outcome: seq<(ElementState, bool)>, phase: map<Element, Phase>, i: nat)
    requires |medias| == |outcome| && i <= |medias|
  {
    && (forall j :: 0 <= j < i ==> (outcome[j].1 <==> medias[j] in phase))
    && (forall e :: e in phase ==> e in medias[..i] && phase[e] == Dormant)
  }

  /** Watching the element at position `i` exactly when it was captured keeps
      `WatchedUpTo` one position further on. */
  lemma WatchedStep(medias: seq<Element>, outcome: seq<(ElementState, bool)>, phase0: map<Element, Phase>,
                    phase1: map<Element, Phase>, i: nat)
    requires |medias| == |outcome| && i < |medias|
    requires forall i, j :: 0 <= i < j < |medias| ==> medias[i] != medias[j]
    requires WatchedUpTo(medias, outcome, phase0, i)
    requires phase1 == if outcome[i].1 then phase0[medias[i] := Dormant] else phase0
    ensures medias[i] !in phase0
    ensures WatchedUpTo(medias, outcome, phase1, i + 1)
  {
    assert medias[i] !in medias[..i] by {
      assert forall k :: 0 <= k < i ==> medias[..i][k] != medias[i];
    }
    forall e | e in phase1
      ensures e in medias[..i + 1] && phase1[e] == Dormant
    {
      if e in phase0 {
        assert e in medias[..i];
      } else {
        assert medias[..i + 1][i] == e;
      }
    }
  }

  /** One turn of the media loop: the element at position `i` is captured and
      watched, or loaded eagerly and sized. */
  method InitializeNext(medias: seq<Element>, ghost before: seq<ElementState>, ghost outcome: seq<(ElementState, bool)>,
                        measured: seq<Measured>, observer: MediaObserver, i: nat)
    requires observer.Valid() && |before| == |medias| == |measured| == |outcome| && i < |medias|
    requires IsMedia(medias[i].tagName)
    requires outcome[i] == Initialized(medias[i].tagName, medias[i].currentSrc, measured[i], observer.cell.height, before[i])
    requires forall i, j :: 0 <= i < j < |medias| ==> medias[i] != medias[j]
    requires StatesUpTo(medias, before, outcome, i) && WatchedUpTo(medias, outcome, observer.phase, i)
    modifies medias[i], observer
    ensures observer.Valid()
    ensures StatesUpTo(medias, before, outcome, i + 1) && WatchedUpTo(medias, outcome, observer.phase, i + 1)
  {
    ghost var phase0 := observer.phase;
    if outcome[i].1 {
      WatchedStep(medias, outcome, phase0, phase0[medias[i] := Dormant], i);
    } else {
      WatchedStep(medias, outcome, phase0, phase0, i);
    }
    InitializeOne(medias[i], measured[i], observer, outcome[i]);
    forall j | 0 <= j < |medias| && j != i
      ensures medias[j].State() == old(medias[j].State())
    {
      assert medias[j] != medias[i];
    }
  }

  /** The media loop's body for one element. */
  method InitializeOne(media: Element, m: Measured, observer: MediaObserver, ghost outcome: (ElementState, bool))
    requires observer.Valid() && IsMedia(media.tagName) && media !in observer.phase
    requires outcome == Initialized(media.tagName, media.currentSrc, m, observer.cell.height, media.State())
    modifies media, observer
    ensures observer.Valid()
    ensures media.State() == outcome.0
    ensures observer.phase == if outcome.1 then old(observer.phase)[media := Dormant] else old(observer.phase)
  {
    var r := SetupLazyLoading(media);
    if r.Some? {
      observer.Observe(media);
    } else {
      media.SetAttribute("src", EagerSource(media.State()));
      HandleMediaDimensions(media, m, observer.cell);
    }
  }
}
