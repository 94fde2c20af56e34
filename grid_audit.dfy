/** The grid auditor (`checkOffsets`): one pass over the page's elements that
    marks every element whose top edge is not on a half-row line with the
    `off-grid` class, clears the class from the others, and logs one
    diagnostic per misplaced element. */
module GridAudit {
  import opened Optional
  import opened Dom
  import opened GridSnap
  import JsMath

  const OffGridClass := "off-grid"

  /** Table parts, whose boxes follow the table's own layout. */
  const IgnoredTags: set<string> := {"THEAD", "TBODY", "TFOOT", "TR", "TD", "TH"}

  /** The part of `getBoundingClientRect()` the auditor reads (viewport coordinates). */
  datatype Rect = Rect(top: real, width: real, height: real)

  datatype Verdict = Skipped | Aligned | OffGrid

  /** One `console.error` line: the element's position in the pass, `top % h`,
      and the half-row unit it was expected to be divisible by. */
  datatype Diagnostic = Diagnostic(index: nat, remainder: real, expected: real)

  /** `top % (h / 2) > 0` with JavaScript's `%`, without any tolerance. */
  predicate IsOffGrid(top: real, cellHeight: real)
    requires cellHeight > 0.0
    ensures IsOffGrid(top, cellHeight) ==> top > 0.0
  {
    JsMath.Rem(top, cellHeight / 2.0) > 0.0
  }

  /** A top edge is off the grid exactly when it lies below the page origin and
      is not a whole number of half rows: a negative remainder reads as aligned. */
  lemma OffGridIff(top: real, cellHeight: real)
    requires cellHeight > 0.0
    ensures IsOffGrid(top, cellHeight) <==> top > 0.0 && !JsMath.IsMultipleOf(top, cellHeight / 2.0)
  {
    JsMath.RemZeroIffMultiple(top, cellHeight / 2.0);
  }

  /** The verdict on one element whose box is `rect` with the page scrolled by `scrollY`. */
  function Classify(tag: string, rect: Rect, scrollY: real, cellHeight: real): (v: Verdict)
    requires cellHeight > 0.0
    ensures v == Skipped <==> tag in IgnoredTags || (rect.width == 0.0 && rect.height == 0.0)
    ensures v == OffGrid ==> rect.top + scrollY > 0.0
  {
    if tag in IgnoredTags || (rect.width == 0.0 && rect.height == 0.0) then Skipped
    else if IsOffGrid(rect.top + scrollY, cellHeight) then OffGrid
    else Aligned
  }

  /** A checked element is off-grid exactly when its page top is below the
      origin and not a whole number of half rows. */
  lemma ClassifyIff(tag: string, rect: Rect, scrollY: real, cellHeight: real)
    requires cellHeight > 0.0
    ensures Classify(tag, rect, scrollY, cellHeight) == OffGrid <==>
      && !(tag in IgnoredTags || (rect.width == 0.0 && rect.height == 0.0))
      && rect.top + scrollY > 0.0
      && !JsMath.IsMultipleOf(rect.top + scrollY, cellHeight / 2.0)
  {
    OffGridIff(rect.top + scrollY, cellHeight);
  }

  /** The class list after the verdict: marked, cleared, or left alone. */
  function Reclassed(classes: set<string>, v: Verdict): (c: set<string>)
    ensures v == Skipped ==> c == classes
    ensures v != Skipped ==> (OffGridClass in c <==> v == OffGrid)
    ensures c - {OffGridClass} == classes - {OffGridClass}
  {
    match v
    case Skipped => classes
    case OffGrid => classes + {OffGridClass}
    case Aligned => classes - {OffGridClass}
  }

  /** The diagnostics of one pass over elements with tags `tags` and boxes
      `rects`, in element order. */
  function Diagnostics(tags: seq<string>, rects: seq<Rect>, scrollY: real, cellHeight: real): (ds: seq<Diagnostic>)
    requires cellHeight > 0.0 && |tags| == |rects|
    ensures |ds| <= |tags|
    decreases |tags|
  {
    if tags == [] then []
    else
      var n := |tags| - 1;
      Diagnostics(tags[..n], rects[..n], scrollY, cellHeight) + Lines(LogFor(tags[n], rects[n], scrollY, cellHeight, n))
  }

  /** The line the element at `index` logs, if any. */
  function LogFor(tag: string, rect: Rect, scrollY: real, cellHeight: real, index: nat): (d: Option<Diagnostic>)
    requires cellHeight > 0.0
    ensures d.Some? <==> Classify(tag, rect, scrollY, cellHeight) == OffGrid
    ensures d.Some? ==> d.value.index == index
  {
    if Classify(tag, rect, scrollY, cellHeight) == OffGrid
    then Some(Logged(index, rect.top + scrollY, cellHeight)) else None
  }

  /** The console lines one verdict prints. */
  function Lines(d: Option<Diagnostic>): seq<Diagnostic>
  {
    if d.Some? then [d.value] else []
  }

  /** Every logged line belongs to an off-grid element and carries that
      element's remainder against a full row and the half-row unit. */
  lemma {:induction false} DiagnosticsAreSound(tags: seq<string>, rects: seq<Rect>, scrollY: real, cellHeight: real)
    requires cellHeight > 0.0 && |tags| == |rects|
    ensures forall d :: d in Diagnostics(tags, rects, scrollY, cellHeight) ==>
      && d.index < |tags|
      && Classify(tags[d.index], rects[d.index], scrollY, cellHeight) == OffGrid
      && d == Logged(d.index, rects[d.index].top + scrollY, cellHeight)
    decreases |tags|
  {
    if tags != [] {
      var n := |tags| - 1;
      var ds0 := Diagnostics(tags[..n], rects[..n], scrollY, cellHeight);
      var ds := Diagnostics(tags, rects, scrollY, cellHeight);
      DiagnosticsAreSound(tags[..n], rects[..n], scrollY, cellHeight);
      forall d | d in ds
        ensures d.index < |tags|
        ensures Classify(tags[d.index], rects[d.index], scrollY, cellHeight) == OffGrid
        ensures d == Logged(d.index, rects[d.index].top + scrollY, cellHeight)
      {
        if d in ds0 {
          assert tags[..n][d.index] == tags[d.index] && rects[..n][d.index] == rects[d.index];
        }
      }
    }
  }

  /** Each line's element comes after the previous line's. */
  predicate InElementOrder(ds: seq<Diagnostic>)
  {
    forall j, k :: 0 <= j < k < |ds| ==> ds[j].index < ds[k].index
  }

  /** The logged lines come in element order. */
  lemma {:induction false} DiagnosticsInOrder(tags: seq<string>, rects: seq<Rect>, scrollY: real, cellHeight: real)
    requires cellHeight > 0.0 && |tags| == |rects|
    ensures forall d :: d in Diagnostics(tags, rects, scrollY, cellHeight) ==> d.index < |tags|
    ensures InElementOrder(Diagnostics(tags, rects, scrollY, cellHeight))
    decreases |tags|
  {
    if tags != [] {
      var n := |tags| - 1;
      var ds0 := Diagnostics(tags[..n], rects[..n], scrollY, cellHeight);
      var ds := Diagnostics(tags, rects, scrollY, cellHeight);
      DiagnosticsInOrder(tags[..n], rects[..n], scrollY, cellHeight);
      var last := Logged(n, rects[n].top + scrollY, cellHeight);
      if Classify(tags[n], rects[n], scrollY, cellHeight) == OffGrid {
        assert ds == ds0 + [last];
        forall j, k | 0 <= j < k < |ds|
          ensures ds[j].index < ds[k].index
        {
          assert ds[j] == ds0[j] && ds0[j] in ds0;
          if k < |ds0| {
            assert ds[k] == ds0[k];
          }
        }
      } else {
        assert ds == ds0;
      }
    }
  }

  /** A pass over one more element logs at most that element. */
  lemma DiagnosticsStep(tags: seq<string>, rects: seq<Rect>, scrollY: real, cellHeight: real, i: nat)
    requires cellHeight > 0.0 && |tags| == |rects| && i < |tags|
    ensures Diagnostics(tags[..i + 1], rects[..i + 1], scrollY, cellHeight)
         == Diagnostics(tags[..i], rects[..i], scrollY, cellHeight) + Lines(LogFor(tags[i], rects[i], scrollY, cellHeight, i))
  {
    assert tags[..i + 1][..i] == tags[..i] && rects[..i + 1][..i] == rects[..i];
  }

  /** The line logged for the element at `index` whose page top is `top`. */
  function Logged(index: nat, top: real, cellHeight: real): Diagnostic
    requires cellHeight > 0.0
  {
    Diagnostic(index, JsMath.Rem(top, cellHeight), cellHeight / 2.0)
  }

  /** Every off-grid element is logged, with its remainder against a full row. */
  lemma {:induction false} OffGridElementsAreLogged(tags: seq<string>, rects: seq<Rect>, scrollY: real, cellHeight: real, i: nat)
    requires cellHeight > 0.0 && |tags| == |rects| && i < |tags|
    requires Classify(tags[i], rects[i], scrollY, cellHeight) == OffGrid
    ensures Logged(i, rects[i].top + scrollY, cellHeight) in Diagnostics(tags, rects, scrollY, cellHeight)
    decreases |tags|
  {
    var n := |tags| - 1;
    if i < n {
      OffGridElementsAreLogged(tags[..n], rects[..n], scrollY, cellHeight, i);
      assert tags[..n][i] == tags[i] && rects[..n][i] == rects[i];
    }
  }

  /** On a page where every top edge is a whole number of half rows, a pass
      marks no element and logs nothing. */
  lemma AlignedPageIsClean(tags: seq<string>, rects: seq<Rect>, scrollY: real, cellHeight: real)
    requires cellHeight > 0.0 && |tags| == |rects|
    requires forall i :: 0 <= i < |rects| ==> JsMath.IsMultipleOf(rects[i].top + scrollY, cellHeight / 2.0)
    ensures forall i :: 0 <= i < |tags| ==> Classify(tags[i], rects[i], scrollY, cellHeight) != OffGrid
    ensures Diagnostics(tags, rects, scrollY, cellHeight) == []
  {
    forall i | 0 <= i < |tags|
      ensures Classify(tags[i], rects[i], scrollY, cellHeight) != OffGrid
    {
      ClassifyIff(tags[i], rects[i], scrollY, cellHeight);
    }
    DiagnosticsAreSound(tags, rects, scrollY, cellHeight);
  }

  /** Verdicts do not depend on the class list, so a second pass over an
      unchanged layout marks the same elements and logs every misplaced element again. */
  lemma SecondPassRepeats(tag: string, rect: Rect, scrollY: real, cellHeight: real, classes: set<string>)
    requires cellHeight > 0.0
    ensures var v := Classify(tag, rect, scrollY, cellHeight);
      Reclassed(Reclassed(classes, v), v) == Reclassed(classes, v)
  {
  }

  /** An element shifted a quarter row below a row line is off the grid. */
  lemma QuarterShiftIsOffGrid(rows: nat, cellHeight: real)
    requires cellHeight > 0.0
    ensures IsOffGrid(rows as real * cellHeight + cellHeight / 4.0, cellHeight)
  {
    var top := rows as real * cellHeight + cellHeight / 4.0;
    var half := cellHeight / 2.0;
    var q := 2.0 * rows as real + 0.5;
    assert top == q * half;
    JsMath.Cancel(q, half);
    assert (q).Floor == 2 * rows;
    assert top > 0.0;
    OffGridIff(top, cellHeight);
  }

  /** Above the page origin the same quarter-row shift passes the audit: the
      remainder is negative, and only a positive one is flagged. */
  lemma NegativeQuarterShiftPasses(cellHeight: real)
    requires cellHeight > 0.0
    ensures !IsOffGrid(-cellHeight / 4.0, cellHeight)
    ensures !JsMath.IsMultipleOf(-cellHeight / 4.0, cellHeight / 2.0)
  {
    OffGridIff(-cellHeight / 4.0, cellHeight);
    assert (-cellHeight / 4.0) / (cellHeight / 2.0) == -0.5;
  }

  /** The `forEach` body for the element at position `index`. */
  method AuditElement(element: Element, rect: Rect, scrollY: real, cell: GridCell, index: nat) returns (d: Option<Diagnostic>)
    requires cell.height > 0.0
    modifies element
    ensures element.State() == Audited(old(element.State()), element.tagName, rect, scrollY, cell.height)
    ensures d == LogFor(element.tagName, rect, scrollY, cell.height, index)
  {
    if element.tagName in IgnoredTags {
      return None;
    }
    if rect.width == 0.0 && rect.height == 0.0 {
      return None;
    }
    var top := rect.top + scrollY;
    var offset := JsMath.Rem(top, cell.height / 2.0);
    if offset > 0.0 {
      element.AddClass(OffGridClass);
      d := Some(Diagnostic(index, JsMath.Rem(top, cell.height), cell.height / 2.0));
    } else {
      element.RemoveClass(OffGridClass);
      d := None;
    }
  }

  /** An element's state after the pass has judged it. */
  function Audited(s: ElementState, tag: string, rect: Rect, scrollY: real, cellHeight: real): ElementState
    requires cellHeight > 0.0
  {
    s.(classes := Reclassed(s.classes, Classify(tag, rect, scrollY, cellHeight)))
  }

  /** The tag names of `elements`, in order. */
  function TagNames(elements: seq<Element>): (tags: seq<string>)
    ensures |tags| == |elements| && forall i :: 0 <= i < |elements| ==> tags[i] == elements[i].tagName
  {
    seq(|elements|, i requires 0 <= i < |elements| => elements[i].tagName)
  }

  /** The elements before position `i` have been judged and the rest are as they were. */
  predicate AuditedUpTo(elements: seq<Element>, before: seq<ElementState>, rects: seq<Rect>, scrollY: real, cellHeight: real, i: nat)
    requires cellHeight > 0.0 && |before| == |elements| == |rects| && i <= |elements|
    reads elements
  {
    && (forall j :: 0 <= j < i ==>
         elements[j].State() == Audited(before[j], elements[j].tagName, rects[j], scrollY, cellHeight))
    && (forall j :: i <= j < |elements| ==> elements[j].State() == before[j])
  }

  /** `checkOffsets()`, from the animation frame on: `elements` are the
      selected elements, `rects[i]` the box of `elements[i]`. */
  method CheckOffsets(elements: seq<Element>, rects: seq<Rect>, scrollY: real, cell: GridCell) returns (logged: seq<Diagnostic>)
    requires cell.height > 0.0 && |rects| == |elements|
    requires forall i, j :: 0 <= i < j < |elements| ==> elements[i] != elements[j]
    modifies set e | e in elements
    ensures forall i :: 0 <= i < |elements| ==>
      elements[i].State() == Audited(old(elements[i].State()), elements[i].tagName, rects[i], scrollY, cell.height)
    ensures logged == Diagnostics(TagNames(elements), rects, scrollY, cell.height)
  {
    var tags := TagNames(elements);
    ghost var before := seq(|elements|, j requires 0 <= j < |elements| reads elements => elements[j].State());
    logged := [];
    for i := 0 to |elements|
      invariant logged == Diagnostics(tags[..i], rects[..i], scrollY, cell.height)
      invariant AuditedUpTo(elements, before, rects, scrollY, cell.height, i)
    {
      DiagnosticsStep(tags, rects, scrollY, cell.height, i);
      var d := AuditNext(elements, before, rects, scrollY, cell, i);
      logged := logged + Lines(d);
    }
    assert tags[..|elements|] == tags && rects[..|elements|] == rects;
  }

  /** One turn of the pass: the element at position `i` is judged. */
  method AuditNext(elements: seq<Element>, ghost before: seq<ElementState>, rects: seq<Rect>, scrollY: real, cell: GridCell, i: nat)
    returns (d: Option<Diagnostic>)
    requires cell.height > 0.0 && |before| == |elements| == |rects| && i < |elements|
    requires forall i, j :: 0 <= i < j < |elements| ==> elements[i] != elements[j]
    requires AuditedUpTo(elements, before, rects, scrollY, cell.height, i)
    modifies elements[i]
    ensures AuditedUpTo(elements, before, rects, scrollY, cell.height, i + 1)
    ensures d == LogFor(elements[i].tagName, rects[i], scrollY, cell.height, i)
  {
    d := AuditElement(elements[i], rects[i], scrollY, cell, i);
  }
}
