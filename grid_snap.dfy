/** Grid-snap sizing of a media element (`handleMediaDimensions`): a fallback
    height that is the whole number of grid rows nearest to half the element's
    rendered width, written only when the intrinsic size is unknown. */
module GridSnap {
  import opened Optional
  import opened Dom
  import JsMath

  /** The measured size of one grid cell (one character wide, one line high). */
  datatype GridCell = GridCell(width: real, height: real)

  /** What the browser reports about a media element when it is sized: the
      intrinsic size (`naturalWidth`/`naturalHeight` of an image,
      `videoWidth`/`videoHeight` of a video) and the width of its rendered box. */
  datatype Measured = Measured(naturalWidth: nat, naturalHeight: nat, videoWidth: nat, videoHeight: nat, boxWidth: real)

  /** The intrinsic size the tag-name switch picks; other tags leave it undefined. */
  function IntrinsicSize(tag: string, m: Measured): Option<(nat, nat)>
  {
    if tag == IMG then Some((m.naturalWidth, m.naturalHeight))
    else if tag == VIDEO then Some((m.videoWidth, m.videoHeight))
    else None
  }

  /** Both intrinsic dimensions are known and positive, so the ratio path runs. */
  predicate HasRatio(tag: string, m: Measured)
  {
    var size := IntrinsicSize(tag, m);
    size.Some? && size.value.0 > 0 && size.value.1 > 0
  }

  function Abs(x: real): real
  {
    if x < 0.0 then -x else x
  }

  /** `Math.round((boxWidth / 2) / cellHeight) * cellHeight`: a whole number of
      rows, the one nearest to half the box width, a half row rounding up. */
  function FallbackHeight(boxWidth: real, cellHeight: real): (height: real)
    requires cellHeight > 0.0
    ensures JsMath.IsMultipleOf(height, cellHeight)
    ensures height - cellHeight / 2.0 <= boxWidth / 2.0 < height + cellHeight / 2.0
  {
    var x := (boxWidth / 2.0) / cellHeight;
    var k := JsMath.Round(x);
    JsMath.ScaledIntegerIsMultiple(k, cellHeight);
    RoundScaled(boxWidth / 2.0, cellHeight, x, k as real);
    k as real * cellHeight
  }

  /** From `k - 1/2 <= x < k + 1/2` with `t == x * h` follows the same bound on `t` in units of `h`. */
  lemma RoundScaled(t: real, h: real, x: real, k: real)
    requires h > 0.0 && x == t / h
    requires k <= x + 0.5 && x + 0.5 < k + 1.0
    ensures k * h - h / 2.0 <= t && t < k * h + h / 2.0
  {
    assert t == x * h;
    JsMath.ScaleLe(k - 0.5, x, h);
    JsMath.ScaleLt(x, k + 0.5, h);
    assert (k - 0.5) * h == k * h - h / 2.0;
    assert (k + 0.5) * h == k * h + h / 2.0;
  }

  /** The fallback height is at least as close to half the box width as any
      other whole number of rows. */
  lemma FallbackIsNearest(boxWidth: real, cellHeight: real, rows: int)
    requires cellHeight > 0.0
    ensures Abs(FallbackHeight(boxWidth, cellHeight) - boxWidth / 2.0)
         <= Abs(rows as real * cellHeight - boxWidth / 2.0)
  {
    var k := JsMath.Round((boxWidth / 2.0) / cellHeight);
    assert FallbackHeight(boxWidth, cellHeight) == k as real * cellHeight;
    assert rows == k || k as real + 1.0 <= rows as real || rows as real <= k as real - 1.0;
    NearestRow(boxWidth / 2.0, cellHeight, k as real, rows as real);
  }

  /** If `t` is within half a row of `k` rows, no other whole number of rows is closer. */
  lemma NearestRow(t: real, h: real, k: real, r: real)
    requires h > 0.0
    requires k * h - h / 2.0 <= t && t < k * h + h / 2.0
    requires r == k || k + 1.0 <= r || r <= k - 1.0
    ensures Abs(k * h - t) <= Abs(r * h - t)
  {
    if r != k {
      var kh, rh := RowApart(k, r, h);
      CloserThanNeighbours(t, h, kh, rh);
    }
  }

  /** Two different whole numbers of rows are at least one row apart. */
  lemma RowApart(k: real, r: real, h: real) returns (kh: real, rh: real)
    requires h > 0.0 && (k + 1.0 <= r || r <= k - 1.0)
    ensures kh == k * h && rh == r * h
    ensures rh >= kh + h || rh <= kh - h
  {
    kh, rh := k * h, r * h;
    if k + 1.0 <= r {
      JsMath.ScaleLe(k + 1.0, r, h);
      assert (k + 1.0) * h == k * h + h;
    } else {
      JsMath.ScaleLe(r, k - 1.0, h);
      assert (k - 1.0) * h == k * h - h;
    }
  }

  /** A value within half a row of `t` is closer to `t` than anything a whole row away from it. */
  lemma CloserThanNeighbours(t: real, h: real, height: real, other: real)
    requires h > 0.0
    requires height - h / 2.0 <= t && t < height + h / 2.0
    requires other >= height + h || other <= height - h
    ensures Abs(height - t) <= Abs(other - t)
  {
  }

  /** The inline style after sizing: the ratio path computes a padding and
      discards it, so only the fallback writes `height`. */
  function SizedStyle(tag: string, m: Measured, cellHeight: real, style: map<string, real>): (r: map<string, real>)
    requires cellHeight > 0.0
    ensures HasRatio(tag, m) ==> r == style
    ensures !HasRatio(tag, m) ==> "height" in r && JsMath.IsMultipleOf(r["height"], cellHeight)
    ensures r.Keys == style.Keys || r.Keys == style.Keys + {"height"}
    ensures forall p :: p in style && p != "height" ==> p in r && r[p] == style[p]
  {
    if HasRatio(tag, m) then style
    else style["height" := FallbackHeight(m.boxWidth, cellHeight)]
  }

  /** The element state after `handleMediaDimensions`. */
  function Sized(tag: string, m: Measured, cellHeight: real, s: ElementState): (t: ElementState)
    requires cellHeight > 0.0
    ensures t.attrs == s.attrs && t.dataset == s.dataset && t.classes == s.classes && t.calls == s.calls
    ensures HasRatio(tag, m) ==> t == s
    ensures !HasRatio(tag, m) ==> "height" in t.style && t.style["height"] == FallbackHeight(m.boxWidth, cellHeight)
  {
    s.(style := SizedStyle(tag, m, cellHeight, s.style))
  }

  /** Sizing writes at most the `height` property, and when it writes one the
      value is a whole number of rows; with a known ratio it writes nothing. */
  lemma SizingSnapsToRows(tag: string, m: Measured, cellHeight: real, s: ElementState)
    requires cellHeight > 0.0
    ensures var t := Sized(tag, m, cellHeight, s);
      && t.attrs == s.attrs && t.dataset == s.dataset && t.classes == s.classes && t.calls == s.calls
      && (HasRatio(tag, m) ==> t == s)
      && (!HasRatio(tag, m) ==> "height" in t.style && JsMath.IsMultipleOf(t.style["height"], cellHeight))
      && (forall p :: p in s.style && p != "height" ==> p in t.style && t.style[p] == s.style[p])
      && t.style.Keys <= s.style.Keys + {"height"}
  {
  }

  /** Sizing twice with the same measurements is sizing once. */
  lemma SizingIsIdempotent(tag: string, m: Measured, cellHeight: real, s: ElementState)
    requires cellHeight > 0.0
    ensures Sized(tag, m, cellHeight, Sized(tag, m, cellHeight, s)) == Sized(tag, m, cellHeight, s)
  {
  }

  /** `handleMediaDimensions(media, cell)`; the browser's measurements come in as `m`. */
  method HandleMediaDimensions(media: Element, m: Measured, cell: GridCell)
    requires cell.height > 0.0
    modifies media
    ensures media.State() == Sized(media.tagName, m, cell.height, old(media.State()))
  {
    var size := IntrinsicSize(media.tagName, m);
    if size.Some? && size.value.0 > 0 && size.value.1 > 0 {
      // setHeightFromRatio: the padding to the next row is computed, then dropped.
      var ratio := size.value.0 as real / size.value.1 as real;
      var realHeight := m.boxWidth / ratio;
      var diff := cell.height - JsMath.Rem(realHeight, cell.height);
    } else {
      media.SetStyle("height", FallbackHeight(m.boxWidth, cell.height));
    }
  }

  /** A 400px-wide box on a 24px grid gets 8 rows (192px); 410px rounds 8.54 up to 9 rows (216px). */
  lemma FallbackExamples()
    ensures FallbackHeight(400.0, 24.0) == 192.0
    ensures FallbackHeight(410.0, 24.0) == 216.0
  {
  }
}
