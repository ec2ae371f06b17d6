/** The single-dish tracker: its parameters and the guards on them, the
    foreground threshold applied in place, and the choice of the fish among
    the labelled blobs of a region, boxed by strided line scans. */
module Tracker90mmDish {
  import opened Common

  // ---------------------------------------------------------------------
  // Regions and what the image library reports about a labelled region
  // ---------------------------------------------------------------------

  /** An IPP region of interest or rectangle: top-left corner and size. */
  datatype Roi = Roi(x: int, y: int, width: int, height: int)

  datatype Point = Point(x: int, y: int)

  /** The region lies inside an image stored row by row (`im[y, x]`). */
  predicate Inside(r: Roi, height: int, width: int) {
    0 <= r.x && 0 <= r.y && 0 <= r.width && 0 <= r.height
    && r.x + r.width <= width && r.y + r.height <= height
  }

  predicate InRoi(r: Roi, y: int, x: int) {
    r.y <= y < r.y + r.height && r.x <= x < r.x + r.width
  }

  /** The numbers the tracker reads from the image library after labelling
      a region. Labelling, moments and line sums are library code, so they
      are inputs here:
      - nMarkers: the marker count the labelling reports;
      - area(i): the pixel count of label i (its zeroth moment over 255);
      - centroid(i): the centroid BlobWithMoments derives from the moments;
      - columnSum(i, x): the sum of label i's mask over column x of the region;
      - rowSum(i, y, x0, x1): the same over row y, columns x0 .. x1. */
  datatype Labelling = Labelling(
    nMarkers: int,
    area: int -> nat,
    centroid: int -> Point,
    columnSum: (int, int) -> int,
    rowSum: (int, int, int, int) -> int)

  /** A detected blob: the empty, zero-area BlobWithMoments(), or the
      moments of one label with its centroid and bounding box. */
  datatype Blob = EmptyBlob | FishBlob(marker: int, area: int, centroid: Point, box: Roi)

  function Area(b: Blob): int {
    if b.FishBlob? then b.area else 0
  }

  /** What ExtractFish yields: null, a blob, or the IndexOutOfRangeException
      of `blobsDetected[-1]`. */
  datatype Detection = NoCandidate | Candidate(blob: Blob) | OutOfRange

  // ---------------------------------------------------------------------
  // Thresholding (Im2Bw)
  // ---------------------------------------------------------------------

  /** `(byte)v`: C#'s unchecked narrowing. */
  function ToByte(v: int): u8 {
    v % 256
  }

  /** ippiThreshold_LTVal on one pixel: values below `t` become `v`. */
  function LtVal(p: u8, t: u8, v: u8): u8 {
    if p < t then v else p
  }

  /** ippiThreshold_GTVal on one pixel: values above `t` become `v`. */
  function GtVal(p: u8, t: u8, v: u8): u8 {
    if p > t then v else p
  }

  /** The "greater than" threshold of MATLAB's im2bw. */
  function Binarize(p: u8, threshold: u8): u8 {
    if p > threshold then 255 else 0
  }

  /** Im2Bw on one pixel as the code writes it: the lower pass compares with
      `(byte)(threshold + 1)`. */
  function Im2BwAsWritten(p: u8, threshold: u8): u8 {
    GtVal(LtVal(p, ToByte(threshold + 1), 0), threshold, 255)
  }

  /** Im2Bw on one pixel with the lower bound kept as an `int`: pixels up to
      the threshold become 0, the rest 255. */
  function Im2BwPixel(p: u8, threshold: u8): (q: u8)
    ensures q == Binarize(p, threshold)
    ensures threshold < 255 ==> q == Im2BwAsWritten(p, threshold)
  {
    GtVal(if p <= threshold then 0 else p, threshold, 255)
  }

  /** At threshold 255 the narrowed bound is 0, so the code as written leaves
      every pixel as it was instead of clearing it. */
  lemma Im2BwAsWrittenAt255(p: u8)
    ensures Im2BwAsWritten(p, 255) == p
    ensures p != 0 ==> Im2BwAsWritten(p, 255) != Binarize(p, 255)
  {
    assert ToByte(255 + 1) == 0;
  }

  /** Applies `f` to every pixel of the region, in place. */
  method MapRegion(im: array2<u8>, r: Roi, f: u8 -> u8)
    requires Inside(r, im.Length0, im.Length1)
    modifies im
    ensures forall y, x :: 0 <= y < im.Length0 && 0 <= x < im.Length1 ==>
              im[y, x] == if InRoi(r, y, x) then f(old(im[y, x])) else old(im[y, x])
  {
    var y := r.y;
    while y < r.y + r.height
      invariant r.y <= y <= r.y + r.height
      invariant forall i, j :: 0 <= i < im.Length0 && 0 <= j < im.Length1 ==>
                  im[i, j] == if r.y <= i < y && r.x <= j < r.x + r.width then f(old(im[i, j])) else old(im[i, j])
    {
      var x := r.x;
      while x < r.x + r.width
        invariant r.x <= x <= r.x + r.width
        invariant forall i, j :: 0 <= i < im.Length0 && 0 <= j < im.Length1 ==>
                    im[i, j] == if (r.y <= i < y && r.x <= j < r.x + r.width) || (i == y && r.x <= j < x)
                                then f(old(im[i, j])) else old(im[i, j])
      {
        im[y, x] := f(im[y, x]);
        x := x + 1;
      }
      y := y + 1;
    }
  }

  // ---------------------------------------------------------------------
  // Line scans for the bounding box
  // ---------------------------------------------------------------------

  /** A scanned line: a column of the region, or a row restricted to the
      columns x0 .. x1 the column scans found. */
  datatype Line = Column(marker: int) | Row(marker: int, x0: int, x1: int)

  function LineSum(lab: Labelling, line: Line, pos: int): int {
    match line
    case Column(i) => lab.columnSum(i, pos)
    case Row(i, x0, x1) => lab.rowSum(i, pos, x0, x1)
  }

  /** Where a scan toward lower coordinates stops: from `pos` it steps 5
      lines back while the guard `pos > guard` holds and the line it last
      reached had a positive sum. */
  function LastBack(pos: int, guard: int, lab: Labelling, line: Line): int
    decreases pos - guard
  {
    if pos > guard then
      (if LineSum(lab, line, pos - 5) > 0 then LastBack(pos - 5, guard, lab, line) else pos - 5)
    else pos
  }

  /** The same toward higher coordinates, under the guard `pos < guard`. */
  function LastForward(pos: int, guard: int, lab: Labelling, line: Line): int
    decreases guard - pos
  {
    if pos < guard then
      (if LineSum(lab, line, pos + 5) > 0 then LastForward(pos + 5, guard, lab, line) else pos + 5)
    else pos
  }

  /** Line k is one the backward scan from `pos` to `last` sums. */
  predicate SampledBack(k: int, pos: int, last: int) {
    last <= k < pos && (pos - k) % 5 == 0
  }

  predicate SampledForward(k: int, pos: int, last: int) {
    pos < k <= last && (k - pos) % 5 == 0
  }

  /** Every line a backward scan from `pos` to `last` reads lies in [lo, hi). */
  ghost predicate BackWithin(pos: int, last: int, lo: int, hi: int) {
    forall k :: SampledBack(k, pos, last) ==> lo <= k < hi
  }

  ghost predicate ForwardWithin(pos: int, last: int, lo: int, hi: int) {
    forall k :: SampledForward(k, pos, last) ==> lo <= k < hi
  }

  /** The backward scan moves in steps of 5, samples no line below
      `guard - 4`, passes only lines with a positive sum, and stops at a
      line with a zero sum unless the guard stopped it. */
  lemma {:induction false} LastBackFacts(pos: int, guard: int, lab: Labelling, line: Line)
    ensures var last := LastBack(pos, guard, lab, line);
      last <= pos && (pos - last) % 5 == 0
      && (last == pos <==> pos <= guard)
      && (forall k :: SampledBack(k, pos, last) ==> guard - 4 <= k)
      && (forall k :: SampledBack(k, pos, last) && k != last ==> LineSum(lab, line, k) > 0)
      && (last > guard ==> LineSum(lab, line, last) <= 0)
    decreases pos - guard
  {
    if pos > guard && LineSum(lab, line, pos - 5) > 0 {
      LastBackFacts(pos - 5, guard, lab, line);
      var last := LastBack(pos, guard, lab, line);
      forall k | SampledBack(k, pos, last) && k != pos - 5
        ensures SampledBack(k, pos - 5, last)
      {
      }
    }
  }

  lemma {:induction false} LastForwardFacts(pos: int, guard: int, lab: Labelling, line: Line)
    ensures var last := LastForward(pos, guard, lab, line);
      pos <= last && (last - pos) % 5 == 0
      && (last == pos <==> guard <= pos)
      && (forall k :: SampledForward(k, pos, last) ==> k <= guard + 4)
      && (forall k :: SampledForward(k, pos, last) && k != last ==> LineSum(lab, line, k) > 0)
      && (last < guard ==> LineSum(lab, line, last) <= 0)
    decreases guard - pos
  {
    if pos < guard && LineSum(lab, line, pos + 5) > 0 {
      LastForwardFacts(pos + 5, guard, lab, line);
      var last := LastForward(pos, guard, lab, line);
      forall k | SampledForward(k, pos, last) && k != pos + 5
        ensures SampledForward(k, pos + 5, last)
      {
      }
    }
  }

  /** The scan loop toward lower coordinates; returns the last line read. */
  method ScanBack(start: int, guard: int, lab: Labelling, line: Line) returns (pos: int)
    ensures pos == LastBack(start, guard, lab, line)
  {
    pos := start;
    var sum := 1;
    while sum > 0 && pos > guard
      invariant LastBack(start, guard, lab, line) == if sum > 0 then LastBack(pos, guard, lab, line) else pos
      decreases pos - guard
    {
      pos := pos - 5;
      sum := LineSum(lab, line, pos);
    }
  }

  method ScanForward(start: int, guard: int, lab: Labelling, line: Line) returns (pos: int)
    ensures pos == LastForward(start, guard, lab, line)
  {
    pos := start;
    var sum := 1;
    while sum > 0 && pos < guard
      invariant LastForward(start, guard, lab, line) == if sum > 0 then LastForward(pos, guard, lab, line) else pos
      decreases guard - pos
    {
      pos := pos + 5;
      sum := LineSum(lab, line, pos);
    }
  }

  /** The box the four scans give label i: each scan starts 5 lines out from
      the centroid and backs off one line toward it; the row scans use the
      columns the column scans found. */
  function BoundingBox(i: int, region: Roi, lab: Labelling): Roi {
    var c := lab.centroid(i);
    var xStart := LastBack(c.x - 5, region.x + 4, lab, Column(i)) + 1;
    var xEnd := LastForward(c.x + 5, region.x + region.width - 6, lab, Column(i)) - 1;
    var yStart := LastBack(c.y - 5, region.y + 4, lab, Row(i, xStart, xEnd)) + 1;
    var yEnd := LastForward(c.y + 5, region.y + region.height - 6, lab, Row(i, xStart, xEnd)) - 1;
    Roi(xStart, yStart, xEnd - xStart + 1, yEnd - yStart + 1)
  }

  /** Every line the scans of a centroid inside the region read lies inside
      the region, and the row scans read exactly the found column range. */
  lemma ScansStayInside(i: int, region: Roi, lab: Labelling)
    requires InRoi(region, lab.centroid(i).y, lab.centroid(i).x)
    ensures var c, b := lab.centroid(i), BoundingBox(i, region, lab);
      var xl := LastBack(c.x - 5, region.x + 4, lab, Column(i));
      var xr := LastForward(c.x + 5, region.x + region.width - 6, lab, Column(i));
      var yl := LastBack(c.y - 5, region.y + 4, lab, Row(i, b.x, b.x + b.width - 1));
      var yr := LastForward(c.y + 5, region.y + region.height - 6, lab, Row(i, b.x, b.x + b.width - 1));
      BackWithin(c.x - 5, xl, region.x, region.x + region.width)
      && ForwardWithin(c.x + 5, xr, region.x, region.x + region.width)
      && BackWithin(c.y - 5, yl, region.y, region.y + region.height)
      && ForwardWithin(c.y + 5, yr, region.y, region.y + region.height)
      && b.x == xl + 1 && b.x + b.width == xr && b.y == yl + 1 && b.y + b.height == yr
  {
    var c := lab.centroid(i);
    LastBackFacts(c.x - 5, region.x + 4, lab, Column(i));
    LastForwardFacts(c.x + 5, region.x + region.width - 6, lab, Column(i));
    var b := BoundingBox(i, region, lab);
    LastBackFacts(c.y - 5, region.y + 4, lab, Row(i, b.x, b.x + b.width - 1));
    LastForwardFacts(c.y + 5, region.y + region.height - 6, lab, Row(i, b.x, b.x + b.width - 1));
  }

  // ---------------------------------------------------------------------
  // Choosing the fish
  // ---------------------------------------------------------------------

  /** The label count ExtractFish loops over: the reported count capped at 254. */
  function MarkerCount(nMarkers: int): nat {
    if nMarkers <= 0 then 0 else Min(nMarkers, 254)
  }

  /** Label i as a blob: full moments and a box only when its area lies in
      (minArea, maxArea], otherwise the empty blob. */
  function BlobOf(i: int, region: Roi, lab: Labelling, minArea: int, maxArea: int): Blob {
    var a := lab.area(i);
    if minArea < a <= maxArea then FishBlob(i, a, lab.centroid(i), BoundingBox(i, region, lab))
    else EmptyBlob
  }

  /** blobsDetected: one blob per label 1 .. MarkerCount. */
  function Blobs(region: Roi, lab: Labelling, minArea: int, maxArea: int): (bs: seq<Blob>)
    ensures |bs| == MarkerCount(lab.nMarkers)
  {
    seq(MarkerCount(lab.nMarkers), k => BlobOf(k + 1, region, lab, minArea, maxArea))
  }

  /** The max-area loop: (largest area so far, its index), starting from
      (0, -1), replaced only by a strictly larger area. */
  function Largest(bs: seq<Blob>): (r: (int, int))
    ensures -1 <= r.1 < |bs|
    decreases |bs|
  {
    if bs == [] then (0, -1)
    else
      var best := Largest(bs[..|bs| - 1]);
      if Area(bs[|bs| - 1]) > best.0 then (Area(bs[|bs| - 1]), |bs| - 1) else best
  }

  /** The max-area loop over the blob array. */
  method LargestBlob(blobs: array<Blob>) returns (largest: int, largestIndex: int)
    ensures (largest, largestIndex) == Largest(blobs[..])
  {
    largest, largestIndex := 0, -1;
    for i := 0 to blobs.Length
      invariant (largest, largestIndex) == Largest(blobs[..i])
    {
      assert blobs[..i + 1][..i] == blobs[..i];
      if Area(blobs[i]) > largest {
        largest := Area(blobs[i]);
        largestIndex := i;
      }
    }
    assert blobs[..blobs.Length] == blobs[..];
  }

  /** Largest finds the first blob of maximal positive area, and index -1
      with area 0 when no blob has a positive area. */
  lemma {:induction false} LargestIsFirstMaximum(bs: seq<Blob>)
    ensures var best := Largest(bs);
      0 <= best.0 && -1 <= best.1 < |bs|
      && (forall k :: 0 <= k < |bs| ==> Area(bs[k]) <= best.0)
      && (best.1 == -1 ==> best.0 == 0)
      && (best.1 >= 0 ==> best.0 == Area(bs[best.1]) > 0 && forall k :: 0 <= k < best.1 ==> Area(bs[k]) < best.0)
    decreases |bs|
  {
    if bs != [] {
      var init := bs[..|bs| - 1];
      LargestIsFirstMaximum(init);
      assert forall k :: 0 <= k < |init| ==> init[k] == bs[k];
    }
  }

  /** ExtractFish's verdict on its blobs. */
  function Choose(bs: seq<Blob>, minArea: int): Detection {
    var best := Largest(bs);
    if best.0 < minArea then NoCandidate
    else if best.1 < 0 then OutOfRange
    else Candidate(bs[best.1])
  }

  /** What ExtractFish returns for a region with the given labelling. */
  function Extracted(region: Roi, lab: Labelling, minArea: int, maxArea: int): Detection {
    if lab.nMarkers <= 0 then NoCandidate
    else Choose(Blobs(region, lab, minArea, maxArea), minArea)
  }

  /** A returned blob is the first label of largest area among the labels
      1 .. MarkerCount, with its area in (minArea, maxArea]. */
  lemma ExtractedCandidate(region: Roi, lab: Labelling, minArea: int, maxArea: int)
    requires Extracted(region, lab, minArea, maxArea).Candidate?
    ensures var b, n := Extracted(region, lab, minArea, maxArea).blob, MarkerCount(lab.nMarkers);
      b.FishBlob? && 1 <= b.marker <= n && b == BlobOf(b.marker, region, lab, minArea, maxArea)
      && minArea < b.area <= maxArea
      && (forall k :: 1 <= k <= n ==> Area(BlobOf(k, region, lab, minArea, maxArea)) <= b.area)
      && (forall k :: 1 <= k < b.marker ==> Area(BlobOf(k, region, lab, minArea, maxArea)) < b.area)
  {
    var bs := Blobs(region, lab, minArea, maxArea);
    LargestIsFirstMaximum(bs);
    var j := Largest(bs).1;
    assert bs[j] == BlobOf(j + 1, region, lab, minArea, maxArea);
    forall k | 1 <= k <= |bs|
      ensures Area(BlobOf(k, region, lab, minArea, maxArea)) <= Area(bs[j])
    {
      assert bs[k - 1] == BlobOf(k, region, lab, minArea, maxArea);
    }
    forall k | 1 <= k < j + 1
      ensures Area(BlobOf(k, region, lab, minArea, maxArea)) < Area(bs[j])
    {
      assert bs[k - 1] == BlobOf(k, region, lab, minArea, maxArea);
    }
  }

  /** No blob is returned exactly when there are no markers or no label has
      an area in (minArea, maxArea] of at least minArea; the index error
      arises only when minArea <= 0 and no label has a positive area there. */
  lemma ExtractedNone(region: Roi, lab: Labelling, minArea: int, maxArea: int)
    ensures var d, n := Extracted(region, lab, minArea, maxArea), MarkerCount(lab.nMarkers);
      (d == NoCandidate <==>
         lab.nMarkers <= 0
         || forall k :: 1 <= k <= n ==> Area(BlobOf(k, region, lab, minArea, maxArea)) < minArea)
      && (d == OutOfRange <==>
         lab.nMarkers > 0 && minArea <= 0
         && forall k :: 1 <= k <= n ==> Area(BlobOf(k, region, lab, minArea, maxArea)) == 0)
  {
    var bs := Blobs(region, lab, minArea, maxArea);
    var n := MarkerCount(lab.nMarkers);
    LargestIsFirstMaximum(bs);
    var best := Largest(bs);
    if lab.nMarkers > 0 {
      assert forall k :: 1 <= k <= n ==> bs[k - 1] == BlobOf(k, region, lab, minArea, maxArea);
      if best.1 >= 0 {
        assert bs[best.1] == BlobOf(best.1 + 1, region, lab, minArea, maxArea);
      }
    }
  }

  // ---------------------------------------------------------------------
  // The tracker
  // ---------------------------------------------------------------------

  class Tracker90mmDish {
    /** The frame counter (`_frame`). */
    var frame: i32
    var threshold: u8
    var minArea: i32
    var maxArea: i32
    var fullTrustMinArea: i32
    var framesInBackground: i32
    var framesInitialBackground: i32
    /** The foreground image the trackers threshold in place. */
    const foreground: array2<u8>
    const imageRoi: Roi

    /** The defaults: frame 0, threshold 5, areas (10, 300], 7200 frames of
        background and twice that before tracking starts. */
    constructor (imageWidth: nat, imageHeight: nat)
      ensures frame == 0 && threshold == 5 && minArea == 10 && maxArea == 300 && fullTrustMinArea == 20
      ensures framesInBackground == 7200 && framesInitialBackground == 14400
      ensures imageRoi == Roi(0, 0, imageWidth, imageHeight)
      ensures fresh(foreground) && foreground.Length0 == imageHeight && foreground.Length1 == imageWidth
    {
      foreground := new u8[imageHeight, imageWidth];
      frame := 0;
      threshold := 5;
      minArea := 10;
      maxArea := 300;
      fullTrustMinArea := 20;
      imageRoi := Roi(0, 0, imageWidth, imageHeight);
      new;
      var ok := SetFramesInBackground(30 * 240);
      ok := SetFramesInitialBackground(2 * framesInBackground);
    }

    /** The FramesInBackground setter: refused (InvalidOperationException)
        once tracking has started, otherwise the value is stored. */
    method SetFramesInBackground(value: i32) returns (ok: bool)
      modifies this`framesInBackground
      ensures ok <==> frame <= 0
      ensures framesInBackground == if ok then value else old(framesInBackground)
    {
      if frame > 0 {
        return false;
      }
      framesInBackground := value;
      return true;
    }

    /** The FramesInitialBackground setter, guarded the same way. */
    method SetFramesInitialBackground(value: i32) returns (ok: bool)
      modifies this`framesInitialBackground
      ensures ok <==> frame <= 0
      ensures framesInitialBackground == if ok then value else old(framesInitialBackground)
    {
      if frame > 0 {
        return false;
      }
      framesInitialBackground := value;
      return true;
    }

    /** Thresholds the region of `im` in place: the lower pass clears pixels
        up to the threshold, the upper pass sets the others to 255. */
    method Im2Bw(im: array2<u8>, region: Roi)
      requires Inside(region, im.Length0, im.Length1)
      modifies im
      ensures forall y, x :: 0 <= y < im.Length0 && 0 <= x < im.Length1 ==>
                im[y, x] == if InRoi(region, y, x) then Binarize(old(im[y, x]), threshold) else old(im[y, x])
    {
      var t := threshold;
      MapRegion(im, region, p => if p <= t then 0 else p);
      MapRegion(im, region, p => GtVal(p, t, 255));
    }

    /** Label i's blob: moments, then the four line scans, for a fish
        candidate; the empty blob otherwise. */
    method MeasureBlob(i: int, region: Roi, lab: Labelling) returns (b: Blob)
      ensures b == BlobOf(i, region, lab, minArea, maxArea)
    {
      var m00 := lab.area(i);
      if !(m00 > minArea && m00 <= maxArea) {
        return EmptyBlob;
      }
      var centroid := lab.centroid(i);
      var xStart := ScanBack(centroid.x - 5, region.x + 4, lab, Column(i));
      xStart := xStart + 1;
      var xEnd := ScanForward(centroid.x + 5, region.x + region.width - 6, lab, Column(i));
      xEnd := xEnd - 1;
      var yStart := ScanBack(centroid.y - 5, region.y + 4, lab, Row(i, xStart, xEnd));
      yStart := yStart + 1;
      var yEnd := ScanForward(centroid.y + 5, region.y + region.height - 6, lab, Row(i, xStart, xEnd));
      yEnd := yEnd - 1;
      b := FishBlob(i, m00, centroid, Roi(xStart, yStart, xEnd - xStart + 1, yEnd - yStart + 1));
    }

    /** blobsDetected: MeasureBlob for labels 1 .. nMarkers. */
    method MeasureBlobs(region: Roi, lab: Labelling, nMarkers: int) returns (blobsDetected: array<Blob>)
      requires nMarkers == MarkerCount(lab.nMarkers)
      ensures fresh(blobsDetected) && blobsDetected[..] == Blobs(region, lab, minArea, maxArea)
    {
      ghost var bs := Blobs(region, lab, minArea, maxArea);
      blobsDetected := new Blob[nMarkers];
      for i := 1 to nMarkers + 1
        invariant blobsDetected[..i - 1] == bs[..i - 1]
      {
        var b := MeasureBlob(i, region, lab);
        blobsDetected[i - 1] := b;
        assert blobsDetected[..i] == blobsDetected[..i - 1] + [b];
      }
      assert blobsDetected[..] == bs;
    }

    /** The most likely fish in the region: a blob per label (at most 254),
        then the first of largest area; none below MinArea. Every slot of
        blobsDetected is filled, so the loop's null test never stops it. */
    method ExtractFish(region: Roi, lab: Labelling) returns (d: Detection)
      ensures d == Extracted(region, lab, minArea, maxArea)
    {
      var nMarkers := lab.nMarkers;
      if nMarkers <= 0 {
        return NoCandidate;
      }
      if nMarkers > 254 {
        nMarkers := 254;
      }
      var blobsDetected := MeasureBlobs(region, lab, nMarkers);
      var largest, largestIndex := LargestBlob(blobsDetected);
      if largest < minArea {
        return NoCandidate;
      }
      if largestIndex < 0 {
        return OutOfRange;
      }
      return Candidate(blobsDetected[largestIndex]);
    }
  }
}
