/** The multi-well tracker: the wells of a plate grouped into row bands that
    are tracked chunk by chunk, the per-well fish choice by histogram, the
    clamped fixed-size bounding box, and the warm-up/tracking state machine
    of TrackMultiWell. */
module TrackerMultiWell {
  import opened Common
  import opened Tracker90mmDish

  // ---------------------------------------------------------------------
  // Grouping the wells: wellsPerRow and columnStarts
  // ---------------------------------------------------------------------

  /** The wells whose top edge is at y, in file order (the list
      wellsPerRow[y]). */
  function InRow(ws: seq<Roi>, y: int): seq<Roi>
    decreases |ws|
  {
    if ws == [] then []
    else InRow(ws[..|ws| - 1], y) + (if ws[|ws| - 1].y == y then [ws[|ws| - 1]] else [])
  }

  /** The number of wells whose left edge is at x (columnStarts[x]). */
  function InColumn(ws: seq<Roi>, x: int): nat
    decreases |ws|
  {
    if ws == [] then 0
    else InColumn(ws[..|ws| - 1], x) + (if ws[|ws| - 1].x == x then 1 else 0)
  }

  /** The distinct row and column start coordinates. */
  function Tops(ws: seq<Roi>): set<int> {
    set w | w in ws :: w.y
  }

  function Lefts(ws: seq<Roi>): set<int> {
    set w | w in ws :: w.x
  }

  /** A row list holds exactly the wells of that row, and is empty only for
      a coordinate no well starts at. */
  lemma {:induction false} InRowFacts(ws: seq<Roi>, y: int)
    ensures forall w :: w in InRow(ws, y) <==> w in ws && w.y == y
    ensures |InRow(ws, y)| > 0 <==> y in Tops(ws)
    decreases |ws|
  {
    if ws != [] {
      var init, w := ws[..|ws| - 1], ws[|ws| - 1];
      InRowFacts(init, y);
      assert ws == init + [w];
      assert Tops(ws) == Tops(init) + {w.y};
    }
  }

  lemma TopsSnoc(ws: seq<Roi>, w: Roi)
    ensures Tops(ws + [w]) == Tops(ws) + {w.y} && Lefts(ws + [w]) == Lefts(ws) + {w.x}
  {
    assert forall v :: v in ws + [w] <==> v in ws || v == w;
  }

  lemma InRowSnoc(ws: seq<Roi>, w: Roi)
    ensures forall y :: InRow(ws + [w], y) == InRow(ws, y) + (if w.y == y then [w] else [])
    ensures forall x :: InColumn(ws + [w], x) == InColumn(ws, x) + (if w.x == x then 1 else 0)
  {
    assert (ws + [w])[..|ws + [w]| - 1] == ws;
  }

  /** One Add to wellsPerRow: append to an existing row list, or start a
      new one. */
  function AddToRow(m: map<int, seq<Roi>>, w: Roi): map<int, seq<Roi>> {
    if w.y in m then m[w.y := m[w.y] + [w]] else m[w.y := [w]]
  }

  /** One count in columnStarts. */
  function CountColumn(m: map<int, int>, w: Roi): map<int, int> {
    if w.x in m then m[w.x := m[w.x] + 1] else m[w.x := 1]
  }

  ghost predicate RowsOf(m: map<int, seq<Roi>>, ws: seq<Roi>) {
    m.Keys == Tops(ws) && forall y :: y in m ==> m[y] == InRow(ws, y)
  }

  ghost predicate ColumnsOf(m: map<int, int>, ws: seq<Roi>) {
    m.Keys == Lefts(ws) && forall x :: x in m ==> m[x] == InColumn(ws, x)
  }

  lemma AddToRowStep(m: map<int, seq<Roi>>, ws: seq<Roi>, w: Roi)
    requires RowsOf(m, ws)
    ensures RowsOf(AddToRow(m, w), ws + [w])
  {
    TopsSnoc(ws, w);
    InRowSnoc(ws, w);
    InRowFacts(ws, w.y);
  }

  lemma CountColumnStep(m: map<int, int>, ws: seq<Roi>, w: Roi)
    requires ColumnsOf(m, ws)
    ensures ColumnsOf(CountColumn(m, w), ws + [w])
  {
    TopsSnoc(ws, w);
    InRowSnoc(ws, w);
    InColumnZero(ws, w.x);
  }

  lemma {:induction false} InColumnZero(ws: seq<Roi>, x: int)
    ensures x !in Lefts(ws) ==> InColumn(ws, x) == 0
    decreases |ws|
  {
    if ws != [] {
      var init, w := ws[..|ws| - 1], ws[|ws| - 1];
      InColumnZero(init, x);
      assert ws == init + [w];
      TopsSnoc(init, w);
    }
  }

  /** The dictionary-filling loop of the constructor. */
  method GroupWells(wells: seq<Roi>) returns (wellsPerRow: map<int, seq<Roi>>, columnStarts: map<int, int>)
    ensures wellsPerRow.Keys == Tops(wells) && columnStarts.Keys == Lefts(wells)
    ensures forall y :: y in wellsPerRow ==> wellsPerRow[y] == InRow(wells, y)
    ensures forall x :: x in columnStarts ==> columnStarts[x] == InColumn(wells, x)
  {
    wellsPerRow, columnStarts := map[], map[];
    for i := 0 to |wells|
      invariant RowsOf(wellsPerRow, wells[..i]) && ColumnsOf(columnStarts, wells[..i])
    {
      var w := wells[i];
      assert wells[..i + 1] == wells[..i] + [w];
      AddToRowStep(wellsPerRow, wells[..i], w);
      CountColumnStep(columnStarts, wells[..i], w);
      wellsPerRow := AddToRow(wellsPerRow, w);
      columnStarts := CountColumn(columnStarts, w);
    }
    assert wells[..|wells|] == wells;
  }

  // ---------------------------------------------------------------------
  // Sorted coordinates (Keys.ToArray followed by Array.Sort)
  // ---------------------------------------------------------------------

  lemma Inhabited(s: set<int>)
    requires s != {}
    ensures exists x :: x in s
  {
    if forall x :: x !in s {
      assert false;
    }
  }

  ghost function SetMin(s: set<int>): (m: int)
    requires s != {}
    ensures m in s && forall y :: y in s ==> m <= y
    decreases |s|
  {
    Inhabited(s);
    var x :| x in s;
    if s == {x} then x
    else
      var rest := SetMin(s - {x});
      assert forall y :: y in s ==> y == x || y in s - {x};
      if x <= rest then x else rest
  }

  /** A set's elements in ascending order. */
  ghost function Sorted(s: set<int>): seq<int>
    decreases |s|
  {
    if s == {} then [] else [SetMin(s)] + Sorted(s - {SetMin(s)})
  }

  /** The smallest element, by a pass over the set. */
  method MinOf(s: set<int>) returns (m: int)
    requires s != {}
    ensures m == SetMin(s)
  {
    Inhabited(s);
    m :| m in s;
    var rest := s - {m};
    while rest != {}
      invariant rest <= s && m in s && forall y :: y in s - rest ==> m <= y
      decreases |rest|
    {
      Inhabited(rest);
      var y :| y in rest;
      assert s - (rest - {y}) == (s - rest) + {y};
      if y < m {
        m := y;
      }
      rest := rest - {y};
    }
    assert s - rest == s;
  }

  /** Keys.ToArray() followed by Array.Sort: the keys in ascending order. */
  method SortedKeys(s: set<int>) returns (ks: seq<int>)
    ensures ks == Sorted(s)
  {
    ks := [];
    var rest := s;
    while rest != {}
      invariant ks + Sorted(rest) == Sorted(s)
      decreases |rest|
    {
      var m := MinOf(rest);
      assert Sorted(rest) == [m] + Sorted(rest - {m});
      ks := ks + [m];
      rest := rest - {m};
    }
  }

  predicate StrictlyAscending(ks: seq<int>) {
    forall i, j :: 0 <= i < j < |ks| ==> ks[i] < ks[j]
  }

  lemma {:induction false} SortedFacts(s: set<int>)
    ensures StrictlyAscending(Sorted(s)) && |Sorted(s)| == |s|
    ensures forall k :: k in Sorted(s) <==> k in s
    decreases |s|
  {
    if s != {} {
      var m := SetMin(s);
      SortedFacts(s - {m});
      var t := Sorted(s - {m});
      assert Sorted(s) == [m] + t;
      assert |s - {m}| == |s| - 1;
      assert forall k :: k in Sorted(s) <==> k == m || k in t;
      ConsAscending(m, t);
    }
  }

  lemma ConsAscending(m: int, t: seq<int>)
    requires StrictlyAscending(t) && forall k :: k in t ==> m < k
    ensures StrictlyAscending([m] + t)
  {
    forall i, j | 0 <= i < j < |[m] + t|
      ensures ([m] + t)[i] < ([m] + t)[j]
    {
      assert ([m] + t)[j] == t[j - 1] && t[j - 1] in t;
      if i > 0 {
        assert ([m] + t)[i] == t[i - 1];
      }
    }
  }

  // ---------------------------------------------------------------------
  // The row bands
  // ---------------------------------------------------------------------

  /** `if (parallelChunks > wellsPerRow.Count) parallelChunks = wellsPerRow.Count`. */
  function ClampChunks(requested: int, rows: nat): int {
    if requested > rows then rows else requested
  }

  /** The first and last sorted row of chunk i of `chunks` over `rows`
      rows: nPerChunk = rows / chunks each, the last chunk takes the
      remainder. */
  function FirstRow(i: int, rows: nat, chunks: int): int
    requires chunks > 0
  {
    i * (rows / chunks)
  }

  function LastRow(i: int, rows: nat, chunks: int): int
    requires chunks > 0
  {
    var nPerChunk := rows / chunks;
    var nLastChunk := rows - (chunks - 1) * nPerChunk;
    if i == chunks - 1 then FirstRow(i, rows, chunks) + nLastChunk - 1
    else FirstRow(i, rows, chunks) + nPerChunk - 1
  }

  /** The (first, last) sorted-row pair of every chunk. */
  function Bands(rows: nat, chunks: int): (bs: seq<(int, int)>)
    requires chunks > 0
    ensures |bs| == chunks
    ensures forall i :: 0 <= i < chunks ==> bs[i] == (FirstRow(i, rows, chunks), LastRow(i, rows, chunks))
  {
    seq(chunks, i requires 0 <= i < chunks => (FirstRow(i, rows, chunks), LastRow(i, rows, chunks)))
  }

  /** Bands chain over the rows 0..rows-1: the first starts at row 0, each
      starts right after the previous one ends, the last ends at the last
      row, and none is empty. */
  ghost predicate Chained(bs: seq<(int, int)>, rows: nat) {
    |bs| > 0 && bs[0].0 == 0 && bs[|bs| - 1].1 == rows - 1
    && (forall i :: 0 <= i < |bs| ==> bs[i].0 <= bs[i].1)
    && (forall i, j :: 0 <= i < j < |bs| && j == i + 1 ==> bs[j].0 == bs[i].1 + 1)
  }

  /** A chain of bands, each of which indexes the sorted rows. */
  ghost predicate Tiles(bs: seq<(int, int)>, rows: nat) {
    Chained(bs, rows) && forall i :: 0 <= i < |bs| ==> 0 <= bs[i].0 <= bs[i].1 < rows
  }

  /** With 1 < chunks <= rows, nPerChunk = rows / chunks rows per chunk and
      the remainder on the last chunk tile the rows. */
  lemma BandsTile(rows: nat, chunks: int)
    requires 1 < chunks <= rows
    ensures Tiles(Bands(rows, chunks), rows)
  {
    var n := rows / chunks;
    assert n >= 1 by {
      DivPos(rows, chunks);
      MulLeMono(1, n + 1, chunks);
    }
    assert (chunks - 1) * n <= rows - n by {
      DivPos(rows, chunks);
      assert (chunks - 1) * n == chunks * n - n;
    }
    var bs := Bands(rows, chunks);
    forall i, j | 0 <= i < j < chunks && j == i + 1
      ensures bs[j].0 == bs[i].1 + 1
    {
      assert j * n == i * n + n;
    }
    ChainAscends(bs, rows);
  }

  /** In a chain a later band starts after an earlier one ends, and every
      band lies within the rows. */
  lemma ChainAscends(bs: seq<(int, int)>, rows: nat)
    requires Chained(bs, rows)
    ensures Tiles(bs, rows)
    ensures forall i, i' :: 0 <= i < i' < |bs| ==> bs[i].1 < bs[i'].0
  {
    forall i, i' | 0 <= i < i' < |bs|
      ensures bs[i].1 < bs[i'].0
    {
      var k := i + 1;
      while k < i'
        invariant i + 1 <= k <= i' && bs[i].1 < bs[k].0
      {
        k := k + 1;
      }
    }
    forall i | 0 <= i < |bs|
      ensures 0 <= bs[i].0 && bs[i].1 < rows
    {
      if 0 < i {
        assert bs[0].1 < bs[i].0;
      }
      if i < |bs| - 1 {
        assert bs[i].1 < bs[|bs| - 1].0;
      }
    }
  }

  /** In a tiling every row lies in exactly one band. */
  lemma RowInOneBand(bs: seq<(int, int)>, rows: nat, r: int)
    requires Chained(bs, rows) && 0 <= r < rows
    ensures exists i :: 0 <= i < |bs| && bs[i].0 <= r <= bs[i].1
    ensures forall i, i' ::
              (0 <= i < |bs| && 0 <= i' < |bs| && bs[i].0 <= r <= bs[i].1 && bs[i'].0 <= r <= bs[i'].1)
              ==> i == i'
  {
    ChainAscends(bs, rows);
    var i := 0;
    while bs[i].1 < r
      invariant 0 <= i < |bs| && bs[i].0 <= r
      decreases |bs| - i
    {
      i := i + 1;
    }
  }

  /** The wells of the rows ks[0], ks[1], ... one row after the other. */
  function RowsConcat(ws: seq<Roi>, ks: seq<int>): seq<Roi>
    decreases |ks|
  {
    if ks == [] then [] else RowsConcat(ws, ks[..|ks| - 1]) + InRow(ws, ks[|ks| - 1])
  }

  lemma {:induction false} RowsConcatAppend(ws: seq<Roi>, a: seq<int>, b: seq<int>)
    ensures RowsConcat(ws, a + b) == RowsConcat(ws, a) + RowsConcat(ws, b)
    decreases |b|
  {
    if b != [] {
      var b' := b[..|b| - 1];
      assert (a + b)[..|a + b| - 1] == a + b';
      assert (a + b)[|a + b| - 1] == b[|b| - 1];
      RowsConcatAppend(ws, a, b');
    } else {
      assert a + b == a;
    }
  }

  /** The wells of a sequence of chunks, one chunk after the other. */
  function Flatten(css: seq<seq<Roi>>): seq<Roi>
    decreases |css|
  {
    if css == [] then [] else Flatten(css[..|css| - 1]) + css[|css| - 1]
  }

  /** Adding a well to the plate adds it to exactly one listed row. */
  lemma {:induction false} RowsConcatSnoc(ws: seq<Roi>, w: Roi, ks: seq<int>)
    requires forall i, j :: 0 <= i < j < |ks| ==> ks[i] != ks[j]
    ensures multiset(RowsConcat(ws + [w], ks))
            == multiset(RowsConcat(ws, ks)) + (if w.y in ks then multiset{w} else multiset{})
    decreases |ks|
  {
    if ks != [] {
      var ks' := ks[..|ks| - 1];
      var k := ks[|ks| - 1];
      RowsConcatSnoc(ws, w, ks');
      assert (ws + [w])[..|ws + [w]| - 1] == ws;
      assert w.y in ks <==> w.y in ks' || w.y == k;
      assert w.y == k ==> w.y !in ks';
    }
  }

  /** Listing every row once lists every well once. */
  lemma {:induction false} RowsConcatPermutes(ws: seq<Roi>, ks: seq<int>)
    requires forall i, j :: 0 <= i < j < |ks| ==> ks[i] != ks[j]
    requires forall w :: w in ws ==> w.y in ks
    ensures multiset(RowsConcat(ws, ks)) == multiset(ws)
    decreases |ws|
  {
    if ws == [] {
      EmptyRows(ks);
    } else {
      var init, w := ws[..|ws| - 1], ws[|ws| - 1];
      assert ws == init + [w];
      RowsConcatPermutes(init, ks);
      RowsConcatSnoc(init, w, ks);
    }
  }

  lemma {:induction false} EmptyRows(ks: seq<int>)
    ensures RowsConcat([], ks) == []
    decreases |ks|
  {
    if ks != [] {
      EmptyRows(ks[..|ks| - 1]);
    }
  }

  // ---------------------------------------------------------------------
  // The chunk regions
  // ---------------------------------------------------------------------

  /** The region of chunk i as the constructor computes it: the top taken
      from the first sorted row for every chunk, the bottom from the
      chunk's last row, the sides from the smallest and largest column
      start plus the width of the first row's first well. */
  function ChunkRegionAsWritten(wellsPerRow: map<int, seq<Roi>>, rc: seq<int>, cc: seq<int>, last: int): Roi
    requires 0 <= last < |rc| && |cc| > 0
    requires forall j :: 0 <= j < |rc| ==> rc[j] in wellsPerRow && |wellsPerRow[rc[j]]| > 0
  {
    var yTop := wellsPerRow[rc[0]][0].y;
    var yBottom := wellsPerRow[rc[last]][0].y + wellsPerRow[rc[last]][0].height - 1;
    var xLeft := cc[0];
    var xRight := cc[|cc| - 1] + wellsPerRow[rc[0]][0].width - 1;
    Roi(xLeft, yTop, xRight - xLeft + 1, yBottom - yTop + 1)
  }

  /** The region of chunk i with its top taken from the chunk's own first
      row. */
  function ChunkRegion(wellsPerRow: map<int, seq<Roi>>, rc: seq<int>, cc: seq<int>, first: int, last: int): Roi
    requires 0 <= first <= last < |rc| && |cc| > 0
    requires forall j :: 0 <= j < |rc| ==> rc[j] in wellsPerRow && |wellsPerRow[rc[j]]| > 0
  {
    var yTop := wellsPerRow[rc[first]][0].y;
    var yBottom := wellsPerRow[rc[last]][0].y + wellsPerRow[rc[last]][0].height - 1;
    var xLeft := cc[0];
    var xRight := cc[|cc| - 1] + wellsPerRow[rc[0]][0].width - 1;
    Roi(xLeft, yTop, xRight - xLeft + 1, yBottom - yTop + 1)
  }

  /** Every well of the plate has the size of the first one. */
  ghost predicate SameSize(ws: seq<Roi>) {
    |ws| > 0 && forall w :: w in ws ==> w.width == ws[0].width && w.height == ws[0].height
  }

  /** The first well of each listed row list starts at that row. */
  lemma RowHeads(m: map<int, seq<Roi>>, ws: seq<Roi>, rc: seq<int>)
    requires RowsOf(m, ws) && rc == Sorted(Tops(ws))
    ensures forall j :: 0 <= j < |rc| ==> rc[j] in m && |m[rc[j]]| > 0
    ensures forall j :: 0 <= j < |rc| ==> m[rc[j]][0] in ws && m[rc[j]][0].y == rc[j]
  {
    SortedFacts(Tops(ws));
    forall j | 0 <= j < |rc|
      ensures rc[j] in m && |m[rc[j]]| > 0 && m[rc[j]][0] in ws && m[rc[j]][0].y == rc[j]
    {
      InRowFacts(ws, rc[j]);
      assert m[rc[j]][0] in InRow(ws, rc[j]);
    }
  }

  /** Chunk i's own region contains every well of the chunk's rows. */
  lemma ChunkRegionCoversWells(m: map<int, seq<Roi>>, ws: seq<Roi>, rc: seq<int>, cc: seq<int>, first: int, last: int)
    requires RowsOf(m, ws) && rc == Sorted(Tops(ws)) && cc == Sorted(Lefts(ws)) && SameSize(ws)
    requires 0 <= first <= last < |rc|
    ensures |cc| > 0 && forall j :: 0 <= j < |rc| ==> rc[j] in m && |m[rc[j]]| > 0
    ensures var r := ChunkRegion(m, rc, cc, first, last);
      forall w :: w in ws && rc[first] <= w.y <= rc[last] ==>
        r.x <= w.x && w.x + w.width <= r.x + r.width && r.y <= w.y && w.y + w.height <= r.y + r.height
  {
    RowHeads(m, ws, rc);
    ColumnSpan(ws, cc);
  }

  /** The sorted column starts run from the smallest to the largest well
      x coordinate. */
  lemma ColumnSpan(ws: seq<Roi>, cc: seq<int>)
    requires cc == Sorted(Lefts(ws)) && |ws| > 0
    ensures |cc| > 0 && cc[0] in Lefts(ws) && cc[|cc| - 1] in Lefts(ws)
    ensures forall w :: w in ws ==> cc[0] <= w.x <= cc[|cc| - 1]
  {
    SortedFacts(Lefts(ws));
    assert ws[0].x in Lefts(ws);
    forall w | w in ws
      ensures cc[0] <= w.x <= cc[|cc| - 1]
    {
      assert w.x in Lefts(ws);
      var k :| 0 <= k < |cc| && cc[k] == w.x;
      assert k == 0 || cc[0] < cc[k];
      assert k == |cc| - 1 || cc[k] < cc[|cc| - 1];
    }
  }

  /** As written, every chunk region contains the plate's top-left well
      corner, so the regions of any two chunks intersect. */
  lemma ChunkRegionsAsWrittenOverlap(m: map<int, seq<Roi>>, ws: seq<Roi>, rc: seq<int>, cc: seq<int>, bs: seq<(int, int)>)
    requires RowsOf(m, ws) && rc == Sorted(Tops(ws)) && cc == Sorted(Lefts(ws)) && SameSize(ws)
    requires ws[0].width > 0 && ws[0].height > 0 && Tiles(bs, |rc|)
    ensures |cc| > 0 && forall j :: 0 <= j < |rc| ==> rc[j] in m && |m[rc[j]]| > 0
    ensures forall i :: 0 <= i < |bs| ==> InRoi(ChunkRegionAsWritten(m, rc, cc, bs[i].1), rc[0], cc[0])
  {
    RowHeads(m, ws, rc);
    SortedFacts(Tops(ws));
    SortedFacts(Lefts(ws));
    assert ws[0].x in Lefts(ws);
    forall i | 0 <= i < |bs|
      ensures InRoi(ChunkRegionAsWritten(m, rc, cc, bs[i].1), rc[0], cc[0])
    {
      var l := bs[i].1;
      assert l == 0 || rc[0] < rc[l];
      assert m[rc[l]][0] in ws && m[rc[0]][0] in ws;
    }
  }

  /** The constructor's region of a chunk contains the corrected one, and
      the pixels it adds all lie above the chunk's first row: the model's
      chunk regions leave out exactly those pixels. */
  lemma ChunkRegionWithinAsWritten(m: map<int, seq<Roi>>, ws: seq<Roi>, rc: seq<int>, cc: seq<int>, first: int, last: int, y: int, x: int)
    requires RowsOf(m, ws) && rc == Sorted(Tops(ws)) && cc == Sorted(Lefts(ws))
    requires 0 <= first <= last < |rc|
    ensures |cc| > 0 && forall j :: 0 <= j < |rc| ==> rc[j] in m && |m[rc[j]]| > 0
    ensures InRoi(ChunkRegion(m, rc, cc, first, last), y, x) ==> InRoi(ChunkRegionAsWritten(m, rc, cc, last), y, x)
    ensures InRoi(ChunkRegionAsWritten(m, rc, cc, last), y, x) && !InRoi(ChunkRegion(m, rc, cc, first, last), y, x)
            ==> y < rc[first]
  {
    RowHeads(m, ws, rc);
    SortedFacts(Tops(ws));
    ColumnSpan(ws, cc);
    var a, r := ChunkRegionAsWritten(m, rc, cc, last), ChunkRegion(m, rc, cc, first, last);
    assert a.y == rc[0] && r.y == rc[first];
    assert first == 0 || rc[0] < rc[first];
    assert a.x == r.x && a.width == r.width && a.y + a.height == r.y + r.height;
  }

  /** The corrected regions of two different chunks share no pixel when
      the rows of wells do not overlap vertically. */
  lemma ChunkRegionsDisjoint(m: map<int, seq<Roi>>, ws: seq<Roi>, rc: seq<int>, cc: seq<int>, bs: seq<(int, int)>)
    requires RowsOf(m, ws) && rc == Sorted(Tops(ws)) && cc == Sorted(Lefts(ws)) && SameSize(ws)
    requires forall j :: 0 <= j < |rc| - 1 ==> rc[j] + ws[0].height <= rc[j + 1]
    requires Tiles(bs, |rc|)
    ensures |cc| > 0 && forall j :: 0 <= j < |rc| ==> rc[j] in m && |m[rc[j]]| > 0
    ensures forall i, i', y, x ::
      (0 <= i < i' < |bs| && InRoi(ChunkRegion(m, rc, cc, bs[i].0, bs[i].1), y, x))
      ==> !InRoi(ChunkRegion(m, rc, cc, bs[i'].0, bs[i'].1), y, x)
  {
    RowHeads(m, ws, rc);
    SortedFacts(Tops(ws));
    SortedFacts(Lefts(ws));
    assert ws[0].x in Lefts(ws);
    ChainAscends(bs, |rc|);
    forall i, i' | 0 <= i < i' < |bs|
      ensures ChunkRegion(m, rc, cc, bs[i].0, bs[i].1).y + ChunkRegion(m, rc, cc, bs[i].0, bs[i].1).height
              <= ChunkRegion(m, rc, cc, bs[i'].0, bs[i'].1).y
    {
      var l, f' := bs[i].1, bs[i'].0;
      assert l + 1 == f' || rc[l + 1] < rc[f'];
      assert m[rc[l]][0] in ws && m[rc[f']][0] in ws;
    }
  }

  // ---------------------------------------------------------------------
  // Result slots: _parallelCumWellCount
  // ---------------------------------------------------------------------

  /** The number of wells in the chunks before chunk c: chunk c's first
      slot in the result array. */
  function Offset(css: seq<seq<Roi>>, c: int): nat
    requires 0 <= c <= |css|
  {
    |Flatten(css[..c])|
  }

  lemma FlattenStep(css: seq<seq<Roi>>, c: int)
    requires 0 <= c < |css|
    ensures Flatten(css[..c + 1]) == Flatten(css[..c]) + css[c]
  {
    assert css[..c + 1][..c] == css[..c];
  }

  /** Slot Offset(c) + i of the flattened list holds well i of chunk c. */
  ghost predicate SlotHolds(css: seq<seq<Roi>>, c: int, i: int)
    requires 0 <= c < |css| && 0 <= i < |css[c]|
  {
    Offset(css, c) + i < |Flatten(css)| && Flatten(css)[Offset(css, c) + i] == css[c][i]
  }

  lemma {:induction false} FlattenSlots(css: seq<seq<Roi>>)
    ensures forall c, i :: 0 <= c < |css| && 0 <= i < |css[c]| ==> SlotHolds(css, c, i)
    decreases |css|
  {
    if css != [] {
      var n := |css| - 1;
      var init := css[..n];
      FlattenSlots(init);
      assert Flatten(css) == Flatten(init) + css[n];
      forall c, i | 0 <= c < |css| && 0 <= i < |css[c]|
        ensures SlotHolds(css, c, i)
      {
        if c < n {
          assert css[..c] == init[..c] && css[c] == init[c];
          assert SlotHolds(init, c, i);
          assert Offset(css, c) == Offset(init, c);
        } else {
          assert css[..c] == init;
        }
      }
    }
  }

  /** Later chunks start after earlier chunks end. */
  lemma OffsetsAscend(css: seq<seq<Roi>>)
    ensures forall c, c' :: 0 <= c < c' <= |css| ==> Offset(css, c) + |css[c]| <= Offset(css, c')
    ensures Offset(css, |css|) == |Flatten(css)|
  {
    assert css[..|css|] == css;
    forall c | 0 <= c < |css|
      ensures Offset(css, c + 1) == Offset(css, c) + |css[c]|
    {
      FlattenStep(css, c);
    }
    forall c, c' | 0 <= c < c' <= |css|
      ensures Offset(css, c) + |css[c]| <= Offset(css, c')
    {
      var k := c + 1;
      while k < c'
        invariant c + 1 <= k <= c' && Offset(css, c) + |css[c]| <= Offset(css, k)
      {
        k := k + 1;
      }
    }
  }

  /** The (chunk, well) pair owning slot k of the flattened list. */
  function SlotOf(css: seq<seq<Roi>>, k: int): (ci: (int, int))
    requires 0 <= k < |Flatten(css)|
    ensures 0 <= ci.0 < |css| && 0 <= ci.1 < |css[ci.0]| && Offset(css, ci.0) + ci.1 == k
    decreases |css|
  {
    var n := |css| - 1;
    var init := css[..n];
    assert css[..n] == init;
    if k < |Flatten(init)| then
      var ci := SlotOf(init, k);
      assert css[..ci.0] == init[..ci.0];
      ci
    else
      (n, k - |Flatten(init)|)
  }

  /** Distinct (chunk, well) pairs own distinct slots: SlotOf inverts the
      slot numbering, and the slot holds that pair's well. */
  lemma SlotsDisjoint(css: seq<seq<Roi>>)
    ensures forall c, i :: 0 <= c < |css| && 0 <= i < |css[c]| ==>
      SlotHolds(css, c, i) && SlotOf(css, Offset(css, c) + i) == (c, i)
  {
    FlattenSlots(css);
    forall c, i | 0 <= c < |css| && 0 <= i < |css[c]|
      ensures SlotHolds(css, c, i) && SlotOf(css, Offset(css, c) + i) == (c, i)
    {
      assert SlotHolds(css, c, i);
      SlotOfAt(css, c, i);
    }
  }

  lemma SlotOfAt(css: seq<seq<Roi>>, c: int, i: int)
    requires 0 <= c < |css| && 0 <= i < |css[c]| && Offset(css, c) + i < |Flatten(css)|
    ensures SlotOf(css, Offset(css, c) + i) == (c, i)
  {
    var k := Offset(css, c) + i;
    var ci := SlotOf(css, k);
    assert Offset(css, ci.0) + ci.1 == k;
    if ci.0 < c {
      OffsetsAscendAt(css, ci.0, c);
      assert false;
    } else if c < ci.0 {
      OffsetsAscendAt(css, c, ci.0);
      assert false;
    }
  }

  lemma OffsetsAscendAt(css: seq<seq<Roi>>, c: int, c': int)
    requires 0 <= c < c' <= |css|
    ensures Offset(css, c) + |css[c]| <= Offset(css, c')
  {
    OffsetsAscend(css);
  }

  lemma RowsConcatSlice(ws: seq<Roi>, rc: seq<int>, first: int, j: int)
    requires 0 <= first <= j < |rc|
    ensures RowsConcat(ws, rc[first..j + 1]) == RowsConcat(ws, rc[first..j]) + InRow(ws, rc[j])
  {
    assert rc[first..j + 1][..j - first] == rc[first..j];
  }

  /** Chunk list i holds the wells of band i's rows, in row order. */
  ghost predicate ChunkListed(ws: seq<Roi>, rc: seq<int>, css: seq<seq<Roi>>, bs: seq<(int, int)>, i: int) {
    0 <= i < |css| && i < |bs| && 0 <= bs[i].0 <= bs[i].1 + 1 <= |rc|
    && css[i] == RowsConcat(ws, rc[bs[i].0..bs[i].1 + 1])
  }

  /** The first n chunk lists, chunk after chunk, list the sorted rows up to
      the end of band n - 1. */
  lemma {:induction false} FlattenBandsUpTo(ws: seq<Roi>, rc: seq<int>, css: seq<seq<Roi>>, bs: seq<(int, int)>, n: int)
    requires Tiles(bs, |rc|) && |css| == |bs| && 1 <= n <= |bs|
    requires forall i :: 0 <= i < |bs| ==> ChunkListed(ws, rc, css, bs, i)
    ensures Flatten(css[..n]) == RowsConcat(ws, rc[..bs[n - 1].1 + 1])
    decreases n
  {
    if n == 1 {
      assert bs[0].0 == 0 && 0 <= bs[0].1 < |rc|;
      assert ChunkListed(ws, rc, css, bs, 0);
      FlattenBandsFirst(ws, rc, css, bs[0].1);
      assert Flatten(css[..n]) == RowsConcat(ws, rc[..bs[n - 1].1 + 1]);
    } else {
      FlattenBandsUpTo(ws, rc, css, bs, n - 1);
      var mid, end := bs[n - 2].1, bs[n - 1].1;
      assert bs[n - 1].0 == mid + 1 && mid + 1 <= end < |rc|;
      assert ChunkListed(ws, rc, css, bs, n - 1);
      FlattenBandsStep(ws, rc, css, n, mid, end);
      assert Flatten(css[..n]) == RowsConcat(ws, rc[..bs[n - 1].1 + 1]);
    }
  }

  /** The first chunk lists the first band of rows. */
  lemma FlattenBandsFirst(ws: seq<Roi>, rc: seq<int>, css: seq<seq<Roi>>, end: int)
    requires 0 < |css| && 0 <= end < |rc|
    requires css[0] == RowsConcat(ws, rc[0..end + 1])
    ensures Flatten(css[..1]) == RowsConcat(ws, rc[..end + 1])
  {
    FlattenStep(css, 0);
    assert css[..0] == [];
    assert rc[..end + 1] == rc[0..end + 1];
  }

  /** One more chunk extends the flattened prefix by the next band of
      rows. */
  lemma FlattenBandsStep(ws: seq<Roi>, rc: seq<int>, css: seq<seq<Roi>>, n: int, mid: int, end: int)
    requires 2 <= n <= |css| && 0 <= mid < end < |rc|
    requires Flatten(css[..n - 1]) == RowsConcat(ws, rc[..mid + 1])
    requires css[n - 1] == RowsConcat(ws, rc[mid + 1..end + 1])
    ensures Flatten(css[..n]) == RowsConcat(ws, rc[..end + 1])
  {
    var a := rc[..mid + 1];
    var b := rc[mid + 1..end + 1];
    FlattenStep(css, n - 1);
    RowsConcatAppend(ws, a, b);
    assert a + b == rc[..end + 1];
  }

  /** The chunk lists, chunk after chunk, list the rows in ascending
      order. */
  lemma FlattenBands(ws: seq<Roi>, rc: seq<int>, css: seq<seq<Roi>>, bs: seq<(int, int)>)
    requires Tiles(bs, |rc|) && |css| == |bs|
    requires forall i :: 0 <= i < |bs| ==> ChunkListed(ws, rc, css, bs, i)
    ensures Flatten(css) == RowsConcat(ws, rc)
  {
    FlattenBandsUpTo(ws, rc, css, bs, |bs|);
    assert css[..|bs|] == css;
    assert rc[..bs[|bs| - 1].1 + 1] == rc;
  }

  // ---------------------------------------------------------------------
  // Building the chunks (the constructor's chunk loop)
  // ---------------------------------------------------------------------

  /** `foreach (IppiROI wr in row) list.Add(wr)`. */
  method AppendRow(list: seq<Roi>, row: seq<Roi>) returns (r: seq<Roi>)
    ensures r == list + row
  {
    r := list;
    for k := 0 to |row|
      invariant r == list + row[..k]
    {
      assert row[..k + 1] == row[..k] + [row[k]];
      r := r + [row[k]];
    }
    assert row[..|row|] == row;
  }

  /** The wells of the sorted rows first..last, row after row. */
  method ChunkWells(m: map<int, seq<Roi>>, ghost ws: seq<Roi>, rc: seq<int>, first: int, last: int)
    returns (list: seq<Roi>)
    requires RowsOf(m, ws) && 0 <= first <= last < |rc|
    requires forall j :: 0 <= j < |rc| ==> rc[j] in m
    ensures list == RowsConcat(ws, rc[first..last + 1])
  {
    list := [];
    var j := first;
    assert rc[first..j] == [];
    while j <= last
      invariant first <= j <= last + 1
      invariant list == RowsConcat(ws, rc[first..j])
    {
      RowsConcatSlice(ws, rc, first, j);
      assert m[rc[j]] == InRow(ws, rc[j]);
      list := AppendRow(list, m[rc[j]]);
      j := j + 1;
    }
    assert j == last + 1;
  }

  /** Chunk k's well list and region, for the band bs[k]. */
  ghost predicate ChunkIs(m: map<int, seq<Roi>>, ws: seq<Roi>, rc: seq<int>, cc: seq<int>, b: (int, int), list: seq<Roi>, region: Roi)
  {
    0 <= b.0 <= b.1 < |rc| && |cc| > 0 && (forall j :: 0 <= j < |rc| ==> rc[j] in m && |m[rc[j]]| > 0)
    && list == RowsConcat(ws, rc[b.0..b.1 + 1]) && region == ChunkRegion(m, rc, cc, b.0, b.1)
  }

  /** The sorted-row range of chunk i: nPerChunk rows each, the last chunk
      taking the remainder. */
  method ChunkRows(rows: nat, chunks: int, i: int) returns (startRowInChunk: int, endRowInChunk: int)
    requires 0 <= i < chunks
    ensures (startRowInChunk, endRowInChunk) == Bands(rows, chunks)[i]
  {
    var nPerChunk := rows / chunks;
    var nLastChunk := rows - (chunks - 1) * nPerChunk;
    startRowInChunk := i * nPerChunk;
    if i == chunks - 1 {
      endRowInChunk := startRowInChunk + nLastChunk - 1;
    } else {
      endRowInChunk := startRowInChunk + nPerChunk - 1;
    }
  }

  /** One pass of the chunk loop: the wells of chunk i's rows and the
      chunk's region. */
  method BuildChunk(m: map<int, seq<Roi>>, ghost ws: seq<Roi>, rc: seq<int>, cc: seq<int>, chunks: int, i: int)
    returns (list: seq<Roi>, region: Roi)
    requires RowsOf(m, ws) && 1 < chunks <= |rc| && |cc| > 0 && 0 <= i < chunks
    requires forall j :: 0 <= j < |rc| ==> rc[j] in m && |m[rc[j]]| > 0
    requires Tiles(Bands(|rc|, chunks), |rc|)
    ensures ChunkIs(m, ws, rc, cc, Bands(|rc|, chunks)[i], list, region)
  {
    var startRowInChunk, endRowInChunk := ChunkRows(|rc|, chunks, i);
    assert 0 <= startRowInChunk <= endRowInChunk < |rc|;
    list := ChunkWells(m, ws, rc, startRowInChunk, endRowInChunk);
    region := ChunkRegion(m, rc, cc, startRowInChunk, endRowInChunk);
    assert ChunkIs(m, ws, rc, cc, (startRowInChunk, endRowInChunk), list, region);
  }

  /** The per-chunk well lists and regions. */
  method BuildChunks(m: map<int, seq<Roi>>, ghost ws: seq<Roi>, rc: seq<int>, cc: seq<int>, chunks: int)
    returns (chunkWells: seq<seq<Roi>>, regions: seq<Roi>)
    requires RowsOf(m, ws) && 1 < chunks <= |rc| && |cc| > 0
    requires forall j :: 0 <= j < |rc| ==> rc[j] in m && |m[rc[j]]| > 0
    ensures Tiles(Bands(|rc|, chunks), |rc|) && |chunkWells| == chunks && |regions| == chunks
    ensures forall i :: 0 <= i < chunks ==> ChunkIs(m, ws, rc, cc, Bands(|rc|, chunks)[i], chunkWells[i], regions[i])
  {
    BandsTile(|rc|, chunks);
    chunkWells, regions := [], [];
    for i := 0 to chunks
      invariant |chunkWells| == i && |regions| == i
      invariant forall k :: 0 <= k < i ==> ChunkIs(m, ws, rc, cc, Bands(|rc|, chunks)[k], chunkWells[k], regions[k])
    {
      var list, region := BuildChunk(m, ws, rc, cc, chunks, i);
      chunkWells, regions := chunkWells + [list], regions + [region];
    }
  }

  /** `_parallelCumWellCount`: zero for chunk 0, then the running sum of the
      earlier chunks' well counts. */
  method CumulativeCounts(chunkWells: seq<seq<Roi>>) returns (cum: seq<int>)
    requires |chunkWells| > 0
    ensures |cum| == |chunkWells| && cum[0] == 0
    ensures forall c :: 0 <= c < |cum| ==> cum[c] == Offset(chunkWells, c)
  {
    cum := [0];
    for i := 1 to |chunkWells|
      invariant |cum| == i
      invariant forall c :: 0 <= c < i ==> cum[c] == Offset(chunkWells, c)
    {
      FlattenStep(chunkWells, i - 1);
      cum := cum + [cum[i - 1] + |chunkWells[i - 1]|];
    }
  }

  /** Chunk regions, both the corrected one and the one the constructor
      builds, lie inside the image when every well does. */
  lemma ChunkRegionInside(m: map<int, seq<Roi>>, ws: seq<Roi>, rc: seq<int>, cc: seq<int>, first: int, last: int, height: int, width: int)
    requires RowsOf(m, ws) && rc == Sorted(Tops(ws)) && cc == Sorted(Lefts(ws)) && SameSize(ws)
    requires forall w :: w in ws ==> Inside(w, height, width)
    requires 0 <= first <= last < |rc|
    ensures |cc| > 0 && forall j :: 0 <= j < |rc| ==> rc[j] in m && |m[rc[j]]| > 0
    ensures Inside(ChunkRegion(m, rc, cc, first, last), height, width)
    ensures Inside(ChunkRegionAsWritten(m, rc, cc, last), height, width)
  {
    BandRegionInside(m, ws, rc, cc, first, last, height, width);
    BandRegionInside(m, ws, rc, cc, 0, last, height, width);
    assert ChunkRegionAsWritten(m, rc, cc, last) == ChunkRegion(m, rc, cc, 0, last);
  }

  lemma BandRegionInside(m: map<int, seq<Roi>>, ws: seq<Roi>, rc: seq<int>, cc: seq<int>, first: int, last: int, height: int, width: int)
    requires RowsOf(m, ws) && rc == Sorted(Tops(ws)) && cc == Sorted(Lefts(ws)) && SameSize(ws)
    requires forall w :: w in ws ==> Inside(w, height, width)
    requires 0 <= first <= last < |rc|
    ensures |cc| > 0 && forall j :: 0 <= j < |rc| ==> rc[j] in m && |m[rc[j]]| > 0
    ensures Inside(ChunkRegion(m, rc, cc, first, last), height, width)
  {
    RowHeads(m, ws, rc);
    SortedFacts(Tops(ws));
    ColumnSpan(ws, cc);
    assert first == last || rc[first] < rc[last];
    assert m[rc[first]][0] in ws && m[rc[last]][0] in ws && m[rc[0]][0] in ws;
    var wr :| wr in ws && wr.x == cc[|cc| - 1];
  }

  // ---------------------------------------------------------------------
  // ExtractAll: one labelling of the whole image, a histogram per well
  // ---------------------------------------------------------------------

  /** What labelling the whole foreground once yields, seen through each
      well (library code, so inputs here):
      - nMarkers: the marker count the labelling reports;
      - count(i, j): the histogram of well i, the number of its pixels
        carrying marker j;
      - centroid(i, j): the centroid of marker j's pixels inside well i. */
  datatype PlateLabelling = PlateLabelling(nMarkers: int, count: (int, int) -> nat, centroid: (int, int) -> Point)

  /** A histogram count the arg-max loop can accept: larger than the
      starting maxCount of 0 and within (minArea, maxArea]. */
  predicate Qualifies(h: int, minArea: int, maxArea: int) {
    0 < h && minArea < h <= maxArea
  }

  /** (maxCount, maxIndex) after the arg-max loop has seen labels 1 .. n of
      well i. */
  function BestLabel(i: int, n: int, pl: PlateLabelling, minArea: int, maxArea: int): (int, int)
    decreases n
  {
    if n <= 0 then (0, -1)
    else
      var best := BestLabel(i, n - 1, pl, minArea, maxArea);
      var h := pl.count(i, n);
      if h > best.0 && h > minArea && h <= maxArea then (h, n) else best
  }

  /** The loop keeps the first label of largest qualifying count; index -1
      exactly when no label qualifies. */
  lemma {:induction false} BestLabelIsFirstMaximum(i: int, n: int, pl: PlateLabelling, minArea: int, maxArea: int)
    ensures var best := BestLabel(i, n, pl, minArea, maxArea);
      (best.1 == -1 <==> forall k :: 1 <= k <= n ==> !Qualifies(pl.count(i, k), minArea, maxArea))
      && (best.1 == -1 ==> best.0 == 0)
      && (best.1 != -1 ==>
            1 <= best.1 <= n && best.0 == pl.count(i, best.1) && Qualifies(best.0, minArea, maxArea)
            && (forall k :: 1 <= k <= n && Qualifies(pl.count(i, k), minArea, maxArea) ==> pl.count(i, k) <= best.0)
            && (forall k :: 1 <= k < best.1 && Qualifies(pl.count(i, k), minArea, maxArea) ==> pl.count(i, k) < best.0))
    decreases n
  {
    if n > 0 {
      BestLabelIsFirstMaximum(i, n - 1, pl, minArea, maxArea);
    }
  }

  /** The scan over labels 1 .. n of well i's histogram. */
  method HistogramArgMax(i: int, n: int, pl: PlateLabelling, minArea: int, maxArea: int)
    returns (maxCount: int, maxIndex: int)
    ensures (maxCount, maxIndex) == BestLabel(i, n, pl, minArea, maxArea)
  {
    maxCount, maxIndex := 0, -1;
    var j := 1;
    while j <= n
      invariant 1 <= j <= if n < 0 then 1 else n + 1
      invariant (maxCount, maxIndex) == BestLabel(i, j - 1, pl, minArea, maxArea)
    {
      var h := pl.count(i, j);
      if h > maxCount && h > minArea && h <= maxArea {
        maxCount, maxIndex := h, j;
      }
      j := j + 1;
    }
  }

  /** `(int)(L * 0.75)` and `(int)(L * 1.5)`: for L >= 0 both products are
      exact in double precision, so the casts are floor divisions. */
  function BoxOffset(length: int): int {
    3 * length / 4
  }

  function BoxSize(length: int): int {
    3 * length / 2
  }

  /** The fixed-size square around the centroid, clamped to the well in
      the order the code does it: left and top edges moved in first (the
      size kept), then the width and height cut at the well's right and
      bottom edges. */
  function ClampBox(c: Point, well: Roi, offset: int, size: int): (b: Roi)
    ensures well.x <= b.x && well.y <= b.y
    ensures b.x + b.width <= well.x + well.width && b.y + b.height <= well.y + well.height
    ensures b.width <= size && b.height <= size
  {
    var x := if c.x - offset < well.x then well.x else c.x - offset;
    var y := if c.y - offset < well.y then well.y else c.y - offset;
    var width := if x + size > well.x + well.width then well.x + well.width - x else size;
    var height := if y + size > well.y + well.height then well.y + well.height - y else size;
    Roi(x, y, width, height)
  }

  /** For a centroid inside the well and L >= 1 the box is non-empty,
      contains the centroid, and lies inside the well; when the square fits
      in the well it is kept as is. */
  lemma BoxAroundCentroid(c: Point, well: Roi, length: int)
    requires length >= 1 && InRoi(well, c.y, c.x)
    ensures var b := ClampBox(c, well, BoxOffset(length), BoxSize(length));
      InRoi(b, c.y, c.x) && 1 <= b.width && 1 <= b.height
      && (well.x <= c.x - BoxOffset(length) && c.x - BoxOffset(length) + BoxSize(length) <= well.x + well.width
          ==> b.x == c.x - BoxOffset(length) && b.width == BoxSize(length))
      && (well.y <= c.y - BoxOffset(length) && c.y - BoxOffset(length) + BoxSize(length) <= well.y + well.height
          ==> b.y == c.y - BoxOffset(length) && b.height == BoxSize(length))
  {
    assert 0 <= BoxOffset(length) < BoxSize(length);
  }

  /** ExtractAll's result for well i: null when no label qualifies, else
      the chosen label's blob (its pixel count as area) with the clamped
      box. */
  function WellFish(i: int, well: Roi, pl: PlateLabelling, minArea: int, maxArea: int, length: int): Option<Blob> {
    var best := BestLabel(i, MarkerCount(pl.nMarkers), pl, minArea, maxArea);
    if best.1 == -1 then None
    else
      var c := pl.centroid(i, best.1);
      Some(FishBlob(best.1, pl.count(i, best.1), c, ClampBox(c, well, BoxOffset(length), BoxSize(length))))
  }

  /** A well's fish is the first label in 1 .. MarkerCount of largest
      count in (minArea, maxArea], and there is none only when no label
      qualifies. */
  lemma WellFishChoice(i: int, well: Roi, pl: PlateLabelling, minArea: int, maxArea: int, length: int)
    ensures var f, n := WellFish(i, well, pl, minArea, maxArea, length), MarkerCount(pl.nMarkers);
      (f.None? <==> forall k :: 1 <= k <= n ==> !Qualifies(pl.count(i, k), minArea, maxArea))
      && (f.Some? ==>
            f.value.FishBlob? && 1 <= f.value.marker <= n && f.value.area == pl.count(i, f.value.marker)
            && minArea < f.value.area <= maxArea && f.value.centroid == pl.centroid(i, f.value.marker)
            && (forall k :: 1 <= k <= n && Qualifies(pl.count(i, k), minArea, maxArea) ==> pl.count(i, k) <= f.value.area)
            && (forall k :: 1 <= k < f.value.marker && Qualifies(pl.count(i, k), minArea, maxArea) ==> pl.count(i, k) < f.value.area))
  {
    BestLabelIsFirstMaximum(i, MarkerCount(pl.nMarkers), pl, minArea, maxArea);
  }

  // ---------------------------------------------------------------------
  // From detections to TrackMultiWell's result
  // ---------------------------------------------------------------------

  /** A detection as an array entry: the blob, or null. */
  function AsEntry(d: Detection): Option<Blob> {
    if d.Candidate? then Some(d.blob) else None
  }

  /** ExtractFish on each of the wells, in order. */
  function Detections(ws: seq<Roi>, wellLab: Roi -> Labelling, minArea: int, maxArea: int): (ds: seq<Detection>)
    ensures |ds| == |ws|
  {
    seq(|ws|, k requires 0 <= k < |ws| => Extracted(ws[k], wellLab(ws[k]), minArea, maxArea))
  }

  /** What a call makes of a run of detections: the exception (None) if
      any of them is the index error, else one entry per detection. */
  function Outcome(ds: seq<Detection>): Option<seq<Option<Blob>>> {
    if exists k :: 0 <= k < |ds| && ds[k].OutOfRange? then None
    else Some(seq(|ds|, k requires 0 <= k < |ds| => AsEntry(ds[k])))
  }

  /** ExtractAll's result list over the plate's wells. */
  function PlateFish(ws: seq<Roi>, pl: PlateLabelling, minArea: int, maxArea: int, length: int): (fish: seq<Option<Blob>>)
    ensures |fish| == |ws|
  {
    seq(|ws|, i requires 0 <= i < |ws| => WellFish(i, ws[i], pl, minArea, maxArea, length))
  }

  /** The result array while the tracker is still learning the
      background: one null per well. */
  function NoFish(n: nat): (fish: seq<Option<Blob>>)
    ensures |fish| == n && forall k :: 0 <= k < n ==> fish[k].None?
  {
    seq(n, _ => None)
  }

  /** `for (i = 0; i < _wellnumber; i++) currentFish[i] = ExtractFish(_wells[i])`:
      the loop the exception leaves early. */
  method ExtractEachWell(base: Tracker90mmDish, ws: seq<Roi>, wellLab: Roi -> Labelling)
    returns (fish: Option<seq<Option<Blob>>>)
    ensures fish == Outcome(Detections(ws, wellLab, base.minArea, base.maxArea))
  {
    ghost var ds := Detections(ws, wellLab, base.minArea, base.maxArea);
    var current: seq<Option<Blob>> := [];
    for i := 0 to |ws|
      invariant |current| == i
      invariant forall k :: 0 <= k < i ==> !ds[k].OutOfRange? && current[k] == AsEntry(ds[k])
    {
      var d := base.ExtractFish(ws[i], wellLab(ws[i]));
      assert d == ds[i];
      if d.OutOfRange? {
        return None;
      }
      current := current + [AsEntry(d)];
    }
    assert current == seq(|ds|, k requires 0 <= k < |ds| => AsEntry(ds[k]));
    return Some(current);
  }

  /** `currentFish[i] = _parallelTrackResults[i]` for every slot, the
      exception of any chunk surfacing as None. */
  method CollectResults(results: array<Detection>) returns (fish: Option<seq<Option<Blob>>>)
    ensures fish == Outcome(results[..])
  {
    ghost var ds := results[..];
    var current: seq<Option<Blob>> := [];
    for i := 0 to results.Length
      invariant |current| == i
      invariant forall k :: 0 <= k < i ==> !ds[k].OutOfRange? && current[k] == AsEntry(ds[k])
    {
      if results[i].OutOfRange? {
        assert ds[i].OutOfRange?;
        return None;
      }
      current := current + [AsEntry(results[i])];
    }
    assert current == seq(|ds|, k requires 0 <= k < |ds| => AsEntry(ds[k]));
    return Some(current);
  }

  /** Writes f(y, x) into every pixel (ippiSet, or AbsDiff into the
      foreground). */
  method Fill(im: array2<u8>, f: (int, int) -> u8)
    modifies im
    ensures forall y, x :: 0 <= y < im.Length0 && 0 <= x < im.Length1 ==> im[y, x] == f(y, x)
  {
    for y := 0 to im.Length0
      invariant forall y', x :: 0 <= y' < y && 0 <= x < im.Length1 ==> im[y', x] == f(y', x)
    {
      for x := 0 to im.Length1
        invariant forall y', x' :: 0 <= y' < y && 0 <= x' < im.Length1 ==> im[y', x'] == f(y', x')
        invariant forall x' :: 0 <= x' < x ==> im[y, x'] == f(y, x')
      {
        im[y, x] := f(y, x);
      }
    }
  }

  // ---------------------------------------------------------------------
  // The tracker
  // ---------------------------------------------------------------------

  datatype TrackMethods = PerWell | OnWholeImage | Parallel

  /** What a call does to the background model (library code): seed it
      from the image, update it fully, update it outside the given fish,
      or leave it. */
  datatype BackgroundUpdate = Seed | FullUpdate | SelectiveUpdate(fish: seq<Option<Blob>>) | NoUpdate

  /** The background step of a call that did not throw. */
  function BackgroundRule(frame: int, framesInitialBackground: int, updateBackground: bool, forceFullFrame: bool,
                          fish: seq<Option<Blob>>): (u: BackgroundUpdate)
    ensures u.Seed? <==> frame == 0
    ensures u.NoUpdate? <==> frame != 0 && !updateBackground && frame > framesInitialBackground
    ensures u.FullUpdate? <==> frame != 0 && (updateBackground || frame <= framesInitialBackground) && forceFullFrame
    ensures u.SelectiveUpdate? ==> u.fish == fish && !forceFullFrame
  {
    if frame == 0 then Seed
    else if updateBackground || frame <= framesInitialBackground then
      (if forceFullFrame then FullUpdate else SelectiveUpdate(fish))
    else NoUpdate
  }

  /** Pixel (y, x) lies in one of the first n chunk regions. */
  ghost predicate CoveredBy(regions: seq<Roi>, n: int, y: int, x: int) {
    exists c :: 0 <= c < n && c < |regions| && InRoi(regions[c], y, x)
  }

  /** Thresholding a region a second time changes nothing, so overlapping
      regions are thresholded as if once. */
  lemma CoveredStep(regions: seq<Roi>, n: int, y: int, x: int, p: u8, q: u8, t: u8)
    requires 0 <= n < |regions|
    requires q == if CoveredBy(regions, n, y, x) then Binarize(p, t) else p
    ensures (if InRoi(regions[n], y, x) then Binarize(q, t) else q)
         == if CoveredBy(regions, n + 1, y, x) then Binarize(p, t) else p
  {
    if InRoi(regions[n], y, x) {
      assert CoveredBy(regions, n + 1, y, x);
    } else if CoveredBy(regions, n + 1, y, x) {
      var c :| 0 <= c < n + 1 && c < |regions| && InRoi(regions[c], y, x);
      assert CoveredBy(regions, n, y, x);
    }
  }

  /** Everything the constructor establishes for parallel tracking. */
  ghost predicate ChunkPlan(ws: seq<Roi>, m: map<int, seq<Roi>>, rc: seq<int>, cc: seq<int>, chunks: int,
                            chunkWells: seq<seq<Roi>>, regions: seq<Roi>, cum: seq<int>, height: int, width: int)
  {
    RowsOf(m, ws) && rc == Sorted(Tops(ws)) && cc == Sorted(Lefts(ws))
    && 1 < chunks <= |rc| && |chunkWells| == chunks && |regions| == chunks && |cum| == chunks
    && Tiles(Bands(|rc|, chunks), |rc|)
    && (forall c :: 0 <= c < chunks ==> ChunkIs(m, ws, rc, cc, Bands(|rc|, chunks)[c], chunkWells[c], regions[c]))
    && (forall c :: 0 <= c < chunks ==> cum[c] == Offset(chunkWells, c))
    && (forall c :: 0 <= c < chunks ==> Inside(regions[c], height, width))
    && Flatten(chunkWells) == RowsConcat(ws, rc)
    && multiset(Flatten(chunkWells)) == multiset(ws) && |Flatten(chunkWells)| == |ws|
  }

  /** The chunks built from the sorted rows hold every well exactly once,
      in row order, and their regions lie inside the image. */
  lemma PlanChunks(ws: seq<Roi>, m: map<int, seq<Roi>>, rc: seq<int>, cc: seq<int>, chunks: int,
                   chunkWells: seq<seq<Roi>>, regions: seq<Roi>, cum: seq<int>, height: int, width: int)
    requires RowsOf(m, ws) && rc == Sorted(Tops(ws)) && cc == Sorted(Lefts(ws)) && SameSize(ws)
    requires forall w :: w in ws ==> Inside(w, height, width)
    requires 1 < chunks <= |rc| && |chunkWells| == chunks && |regions| == chunks && |cum| == chunks
    requires Tiles(Bands(|rc|, chunks), |rc|)
    requires forall c :: 0 <= c < chunks ==> ChunkIs(m, ws, rc, cc, Bands(|rc|, chunks)[c], chunkWells[c], regions[c])
    requires forall c :: 0 <= c < chunks ==> cum[c] == Offset(chunkWells, c)
    ensures ChunkPlan(ws, m, rc, cc, chunks, chunkWells, regions, cum, height, width)
  {
    var bs := Bands(|rc|, chunks);
    forall i | 0 <= i < chunks
      ensures ChunkListed(ws, rc, chunkWells, bs, i)
    {
      assert ChunkIs(m, ws, rc, cc, bs[i], chunkWells[i], regions[i]);
    }
    FlattenBands(ws, rc, chunkWells, bs);
    SortedFacts(Tops(ws));
    RowsConcatPermutes(ws, rc);
    assert |multiset(Flatten(chunkWells))| == |Flatten(chunkWells)|;
    forall c | 0 <= c < chunks
      ensures Inside(regions[c], height, width)
    {
      ChunkRegionInside(m, ws, rc, cc, bs[c].0, bs[c].1, height, width);
    }
  }

  /** The `_parallelChunks > 1` block of the constructor: sort the row
      and column starts, build the chunks, count the wells before each. */
  method PlanParallel(wells: seq<Roi>, m: map<int, seq<Roi>>, columnStarts: map<int, int>, chunks: int, height: int, width: int)
    returns (rc: seq<int>, cc: seq<int>, chunkWells: seq<seq<Roi>>, regions: seq<Roi>, cum: seq<int>)
    requires RowsOf(m, wells) && columnStarts.Keys == Lefts(wells) && SameSize(wells)
    requires forall w :: w in wells ==> Inside(w, height, width)
    requires 1 < chunks <= |m|
    ensures ChunkPlan(wells, m, rc, cc, chunks, chunkWells, regions, cum, height, width)
  {
    rc := SortedKeys(m.Keys);
    cc := SortedKeys(columnStarts.Keys);
    SortedFacts(Tops(wells));
    assert |m| == |m.Keys|;
    ChunkRegionInside(m, wells, rc, cc, 0, 0, height, width);
    chunkWells, regions := BuildChunks(m, wells, rc, cc, chunks);
    cum := CumulativeCounts(chunkWells);
    PlanChunks(wells, m, rc, cc, chunks, chunkWells, regions, cum, height, width);
  }

  /** The constructor's layout work: group the wells by row and column,
      clamp the chunk count to the number of rows, and plan the chunks
      when there is more than one. */
  method Layout(wells: seq<Roi>, parallelChunks: int, height: int, width: int)
    returns (wellsPerRow: map<int, seq<Roi>>, chunks: int, rc: seq<int>, cc: seq<int>,
             chunkWells: seq<seq<Roi>>, regions: seq<Roi>, cum: seq<int>)
    requires parallelChunks >= 0 && SameSize(wells)
    requires forall w :: w in wells ==> Inside(w, height, width)
    ensures chunks == ClampChunks(parallelChunks, |Tops(wells)|) && 0 <= chunks <= |Tops(wells)|
    ensures chunks > 1 ==> ChunkPlan(wells, wellsPerRow, rc, cc, chunks, chunkWells, regions, cum, height, width)
  {
    var m, columnStarts := GroupWells(wells);
    assert |m| == |m.Keys| == |Tops(wells)|;
    wellsPerRow := m;
    chunks := ClampChunks(parallelChunks, |m|);
    if chunks > 1 {
      rc, cc, chunkWells, regions, cum := PlanParallel(wells, m, columnStarts, chunks, height, width);
    } else {
      rc, cc, chunkWells, regions, cum := [], [], [], [], [];
    }
  }

  /** Where chunk c's wells go in the flattened result list. */
  lemma ChunkSlots(css: seq<seq<Roi>>, c: int)
    requires 0 <= c < |css|
    ensures Offset(css, c + 1) == Offset(css, c) + |css[c]| && Offset(css, c + 1) <= |Flatten(css)|
    ensures forall i :: 0 <= i < |css[c]| ==> Flatten(css)[Offset(css, c) + i] == css[c][i]
  {
    FlattenStep(css, c);
    OffsetsAscend(css);
    FlattenSlots(css);
    forall i | 0 <= i < |css[c]|
      ensures Flatten(css)[Offset(css, c) + i] == css[c][i]
    {
      assert SlotHolds(css, c, i);
    }
  }

  /** The detections of a run of wells inside a longer list are that
      list's detections at those positions. */
  lemma DetectionsSlice(all: seq<Roi>, part: seq<Roi>, start: int, wellLab: Roi -> Labelling, minArea: int, maxArea: int)
    requires 0 <= start && start + |part| <= |all|
    requires forall i :: 0 <= i < |part| ==> all[start + i] == part[i]
    ensures forall k :: start <= k < start + |part| ==>
              Detections(all, wellLab, minArea, maxArea)[k] == Detections(part, wellLab, minArea, maxArea)[k - start]
  {
    forall k | start <= k < start + |part|
      ensures Detections(all, wellLab, minArea, maxArea)[k] == Detections(part, wellLab, minArea, maxArea)[k - start]
    {
      assert all[start + (k - start)] == part[k - start];
    }
  }

  /** The slot loop of TrackChunk: well i of the chunk goes to slot
      start + i of the result array, whose other slots are kept. */
  method FillSlots(base: Tracker90mmDish, results: array<Detection>, ourWells: seq<Roi>, start: int,
                   wellLab: Roi -> Labelling, ghost ds: seq<Detection>)
    requires 0 <= start && start + |ourWells| <= results.Length && |ds| == |ourWells|
    requires forall i :: 0 <= i < |ourWells| ==> ds[i] == Extracted(ourWells[i], wellLab(ourWells[i]), base.minArea, base.maxArea)
    modifies results
    ensures forall k :: 0 <= k < results.Length ==>
              results[k] == if start <= k < start + |ourWells| then ds[k - start] else old(results[k])
  {
    for i := 0 to |ourWells|
      invariant forall k :: 0 <= k < results.Length ==>
                  results[k] == if start <= k < start + i then ds[k - start] else old(results[k])
    {
      var d := base.ExtractFish(ourWells[i], wellLab(ourWells[i]));
      results[start + i] := d;
    }
  }

  /** The multi-well tracker: the dish tracker's thresholding and per-region
      extraction run over a plate of wells, by well, on the whole image,
      or by chunks of well rows. */
  class TrackerMultiWell {
    /** The Tracker90mmDish part of the object. */
    const base: Tracker90mmDish
    const wells: seq<Roi>
    const parallelChunks: int
    const parallelChunkWells: seq<seq<Roi>>
    const parallelImageRegions: seq<Roi>
    const parallelCumWellCount: seq<int>
    const allFish: array<Option<Blob>>
    const parallelTrackResults: array<Detection>
    ghost const wellsPerRow: map<int, seq<Roi>>
    ghost const rowCoordinates: seq<int>
    ghost const colCoordinates: seq<int>
    var typicalFishLength: i32
    var trackMethod: TrackMethods
    /** Whether the background model exists: it is created on frame 0. */
    var hasBackground: bool

    /** What the tracking methods rely on. */
    ghost predicate Valid()
      reads this
    {
      |wells| >= 2 && SameSize(wells)
      && (forall w :: w in wells ==> Inside(w, base.foreground.Length0, base.foreground.Length1))
      && base.imageRoi == Roi(0, 0, base.foreground.Length1, base.foreground.Length0)
      && allFish.Length == |wells| && parallelTrackResults.Length == |wells|
      && 0 <= parallelChunks <= |Tops(wells)|
      && typicalFishLength >= 1
      && (parallelChunks > 1 ==>
            |parallelChunkWells| == parallelChunks && |parallelImageRegions| == parallelChunks
            && |parallelCumWellCount| == parallelChunks && |Flatten(parallelChunkWells)| == |wells|
            && (forall c :: 0 <= c < parallelChunks ==> parallelCumWellCount[c] == Offset(parallelChunkWells, c))
            && (forall c :: 0 <= c < parallelChunks ==>
                  Inside(parallelImageRegions[c], base.foreground.Length0, base.foreground.Length1)))
    }

    /** How the chunks were built from the wells: the fixed facts behind
        parallel tracking. */
    ghost predicate Planned() {
      parallelChunks > 1 ==>
        ChunkPlan(wells, wellsPerRow, rowCoordinates, colCoordinates, parallelChunks, parallelChunkWells,
                  parallelImageRegions, parallelCumWellCount, base.foreground.Length0, base.foreground.Length1)
    }

    /** The wells are the input here (the code reads them from a resource
        file); parallelChunks is clamped to the number of well rows. */
    constructor (imageWidth: nat, imageHeight: nat, wells: seq<Roi>, parallelChunks: int)
      requires |wells| >= 2 && parallelChunks >= 0 && SameSize(wells)
      requires forall w :: w in wells ==> Inside(w, imageHeight, imageWidth)
      ensures Valid() && Planned() && fresh(base) && fresh(allFish) && fresh(parallelTrackResults)
      ensures this.wells == wells && this.parallelChunks == ClampChunks(parallelChunks, |Tops(wells)|)
      ensures typicalFishLength == 30 && trackMethod == PerWell && !hasBackground
      ensures base.frame == 0 && base.threshold == 5 && base.minArea == 10 && base.maxArea == 300
      ensures base.framesInBackground == 7200 && base.framesInitialBackground == 14400
      ensures base.foreground.Length0 == imageHeight && base.foreground.Length1 == imageWidth
    {
      base := new Tracker90mmDish(imageWidth, imageHeight);
      this.wells := wells;
      typicalFishLength := 30;
      trackMethod := PerWell;
      hasBackground := false;
      allFish := new Option<Blob>[|wells|](_ => None);
      parallelTrackResults := new Detection[|wells|](_ => NoCandidate);
      var m, chunks, rc, cc, cw, regions, cum := Layout(wells, parallelChunks, imageHeight, imageWidth);
      wellsPerRow, this.parallelChunks, rowCoordinates, colCoordinates := m, chunks, rc, cc;
      parallelChunkWells, parallelImageRegions, parallelCumWellCount := cw, regions, cum;
    }

    /** The TypicalFishLength setter: lengths below 1 are refused. */
    method SetTypicalFishLength(value: i32) returns (ok: bool)
      requires Valid()
      modifies this`typicalFishLength
      ensures Valid()
      ensures ok <==> value >= 1
      ensures typicalFishLength == if ok then value else old(typicalFishLength)
    {
      if value < 1 {
        return false;
      }
      typicalFishLength := value;
      return true;
    }

    method SetTrackMethod(value: TrackMethods)
      modifies this`trackMethod
      ensures trackMethod == value
    {
      trackMethod := value;
    }

    /** ExtractAll: each well's fish from one labelling of the whole image,
        written into allFish, which is then returned. */
    method ExtractAll(pl: PlateLabelling) returns (fish: seq<Option<Blob>>)
      requires Valid()
      modifies allFish
      ensures fish == allFish[..] == PlateFish(wells, pl, base.minArea, base.maxArea, typicalFishLength)
    {
      var length := typicalFishLength;
      var bbOffset, bbSize := BoxOffset(length), BoxSize(length);
      var nMarkers := MarkerCount(pl.nMarkers);
      for i := 0 to |wells|
        invariant forall k :: 0 <= k < i ==> allFish[k] == WellFish(k, wells[k], pl, base.minArea, base.maxArea, length)
      {
        var maxCount, maxIndex := HistogramArgMax(i, nMarkers, pl, base.minArea, base.maxArea);
        if maxIndex == -1 {
          allFish[i] := None;
        } else {
          var c := pl.centroid(i, maxIndex);
          allFish[i] := Some(FishBlob(maxIndex, pl.count(i, maxIndex), c, ClampBox(c, wells[i], bbOffset, bbSize)));
        }
      }
      fish := allFish[..];
    }

    /** TrackChunk(index): threshold the chunk's region, then fill the
        chunk's result slots cum[index] .. cum[index] + count - 1 from its
        wells, in order; no other slot changes. */
    method TrackChunk(index: int, wellLab: Roi -> Labelling)
      requires Valid() && parallelChunks > 1 && 0 <= index < parallelChunks
      modifies base.foreground, parallelTrackResults
      ensures forall y, x :: 0 <= y < base.foreground.Length0 && 0 <= x < base.foreground.Length1 ==>
                base.foreground[y, x] == if InRoi(parallelImageRegions[index], y, x)
                                         then Binarize(old(base.foreground[y, x]), base.threshold)
                                         else old(base.foreground[y, x])
      ensures Offset(parallelChunkWells, index + 1) <= parallelTrackResults.Length
      ensures forall k :: 0 <= k < parallelTrackResults.Length ==>
                parallelTrackResults[k] ==
                  if Offset(parallelChunkWells, index) <= k < Offset(parallelChunkWells, index + 1)
                  then Detections(Flatten(parallelChunkWells), wellLab, base.minArea, base.maxArea)[k]
                  else old(parallelTrackResults[k])
    {
      ghost var css := parallelChunkWells;
      ChunkSlots(css, index);
      base.Im2Bw(base.foreground, parallelImageRegions[index]);
      var ourWells := parallelChunkWells[index];
      var start := parallelCumWellCount[index];
      assert start == Offset(css, index);
      DetectionsSlice(Flatten(css), ourWells, start, wellLab, base.minArea, base.maxArea);
      FillSlots(base, parallelTrackResults, ourWells, start, wellLab, Detections(ourWells, wellLab, base.minArea, base.maxArea));
    }

    /** Parallel.For over the chunks, run one after the other: afterwards
        the pixels of every chunk region are thresholded and every result
        slot holds the detection for its well of the flattened chunk list. */
    method RunChunks(wellLab: Roi -> Labelling)
      requires Valid() && parallelChunks > 1
      modifies base.foreground, parallelTrackResults
      ensures forall y, x :: 0 <= y < base.foreground.Length0 && 0 <= x < base.foreground.Length1 ==>
                base.foreground[y, x] == if CoveredBy(parallelImageRegions, parallelChunks, y, x)
                                         then Binarize(old(base.foreground[y, x]), base.threshold)
                                         else old(base.foreground[y, x])
      ensures parallelTrackResults[..] == Detections(Flatten(parallelChunkWells), wellLab, base.minArea, base.maxArea)
    {
      ghost var css := parallelChunkWells;
      ghost var ds := Detections(Flatten(css), wellLab, base.minArea, base.maxArea);
      for c := 0 to parallelChunks
        invariant forall y, x :: 0 <= y < base.foreground.Length0 && 0 <= x < base.foreground.Length1 ==>
                    base.foreground[y, x] == if CoveredBy(parallelImageRegions, c, y, x)
                                             then Binarize(old(base.foreground[y, x]), base.threshold)
                                             else old(base.foreground[y, x])
        invariant Offset(css, c) <= parallelTrackResults.Length
        invariant forall k :: 0 <= k < Offset(css, c) ==> parallelTrackResults[k] == ds[k]
      {
        label BeforeChunk:
        TrackChunk(c, wellLab);
        forall y, x | 0 <= y < base.foreground.Length0 && 0 <= x < base.foreground.Length1
          ensures base.foreground[y, x] == if CoveredBy(parallelImageRegions, c + 1, y, x)
                                           then Binarize(old(base.foreground[y, x]), base.threshold)
                                           else old(base.foreground[y, x])
        {
          CoveredStep(parallelImageRegions, c, y, x, old(base.foreground[y, x]), old@BeforeChunk(base.foreground[y, x]), base.threshold);
        }
      }
      OffsetsAscend(css);
      assert css[..|css|] == css;
    }

    /** The chunked path runs: Parallel selected and more than one chunk. */
    predicate ParallelPath()
      reads this
    {
      trackMethod == Parallel && parallelChunks > 1
    }

    /** The fish a tracking frame reports under the selected method: by
        chunks in flattened chunk order, from the whole-image labelling,
        or well by well in file order; None when ExtractFish throws. */
    ghost function TrackedFish(wellLab: Roi -> Labelling, plateLab: PlateLabelling): (r: Option<seq<Option<Blob>>>)
      requires Valid()
      reads this, base
      ensures r.Some? ==> |r.value| == |wells|
    {
      if ParallelPath() then Outcome(Detections(Flatten(parallelChunkWells), wellLab, base.minArea, base.maxArea))
      else if trackMethod == OnWholeImage then Some(PlateFish(wells, plateLab, base.minArea, base.maxArea, typicalFishLength))
      else Outcome(Detections(wells, wellLab, base.minArea, base.maxArea))
    }

    /** The tracking branch of TrackMultiWell runs on this frame. */
    ghost predicate Tracks(frame: int, forceFullFrame: bool)
      reads base
    {
      frame > base.framesInitialBackground && !forceFullFrame
    }

    /** TrackMultiWell's result for a call made at `frame`: one null per
        well while the background is still being learnt or a full frame is
        forced; None where the call throws. */
    ghost function FrameResult(frame: int, hadBackground: bool, forceFullFrame: bool,
                               wellLab: Roi -> Labelling, plateLab: PlateLabelling): (r: Option<seq<Option<Blob>>>)
      requires Valid()
      reads this, base
      ensures r.Some? ==> |r.value| == |wells|
      ensures !Tracks(frame, forceFullFrame) ==> r.Some? && forall k :: 0 <= k < |r.value| ==> r.value[k].None?
      ensures Tracks(frame, forceFullFrame) && !hadBackground ==> r.None?
    {
      if !Tracks(frame, forceFullFrame) then Some(NoFish(|wells|))
      else if !hadBackground then None
      else TrackedFish(wellLab, plateLab)
    }

    /** The tracking branch: the difference image becomes the foreground,
        which the selected method thresholds and extracts from. */
    method TrackFrame(difference: (int, int) -> u8, wellLab: Roi -> Labelling, plateLab: PlateLabelling)
      returns (fish: Option<seq<Option<Blob>>>)
      requires Valid()
      modifies base.foreground, allFish, parallelTrackResults
      ensures fish == TrackedFish(wellLab, plateLab)
      ensures forall y, x :: 0 <= y < base.foreground.Length0 && 0 <= x < base.foreground.Length1 ==>
                base.foreground[y, x] ==
                  if ParallelPath() && !CoveredBy(parallelImageRegions, parallelChunks, y, x) then difference(y, x)
                  else Binarize(difference(y, x), base.threshold)
      ensures ParallelPath() ==>
                parallelTrackResults[..] == Detections(Flatten(parallelChunkWells), wellLab, base.minArea, base.maxArea)
      ensures !ParallelPath() ==> parallelTrackResults[..] == old(parallelTrackResults[..])
      ensures !ParallelPath() && trackMethod == OnWholeImage ==> fish.Some? && allFish[..] == fish.value
      ensures ParallelPath() || trackMethod != OnWholeImage ==> allFish[..] == old(allFish[..])
    {
      Fill(base.foreground, difference);
      if trackMethod == Parallel && parallelChunks > 1 {
        RunChunks(wellLab);
        fish := CollectResults(parallelTrackResults);
      } else {
        base.Im2Bw(base.foreground, base.imageRoi);
        if trackMethod == OnWholeImage {
          var all := ExtractAll(plateLab);
          fish := Some(all);
        } else {
          fish := ExtractEachWell(base, wells, wellLab);
        }
      }
    }

    /** One call of TrackMultiWell on an image whose absolute difference to
        the background is `difference`. */
    method TrackMultiWell(updateBackground: bool, forceFullFrame: bool, difference: (int, int) -> u8,
                          wellLab: Roi -> Labelling, plateLab: PlateLabelling)
      returns (fish: Option<seq<Option<Blob>>>, bg: BackgroundUpdate)
      requires Valid()
      modifies this`hasBackground, base`frame, base.foreground, allFish, parallelTrackResults
      ensures Valid()
      ensures fish == FrameResult(old(base.frame), old(hasBackground), forceFullFrame, wellLab, plateLab)
      ensures fish.None? ==> bg == NoUpdate && base.frame == old(base.frame) && hasBackground == old(hasBackground)
      ensures fish.Some? ==>
                bg == BackgroundRule(old(base.frame), base.framesInitialBackground, updateBackground, forceFullFrame, fish.value)
                && base.frame == WrapI32(old(base.frame) + 1)
                && hasBackground == (old(hasBackground) || old(base.frame) == 0)
      ensures forall y, x :: 0 <= y < base.foreground.Length0 && 0 <= x < base.foreground.Length1 ==>
                base.foreground[y, x] ==
                  if Tracks(old(base.frame), forceFullFrame) && old(hasBackground) then
                    (if ParallelPath() && !CoveredBy(parallelImageRegions, parallelChunks, y, x) then difference(y, x)
                     else Binarize(difference(y, x), base.threshold))
                  else if old(base.frame) == 0 then 0
                  else old(base.foreground[y, x])
      ensures Tracks(old(base.frame), forceFullFrame) && old(hasBackground) && ParallelPath()
              ==> parallelTrackResults[..] == Detections(Flatten(parallelChunkWells), wellLab, base.minArea, base.maxArea)
      ensures !(Tracks(old(base.frame), forceFullFrame) && old(hasBackground) && ParallelPath())
              ==> parallelTrackResults[..] == old(parallelTrackResults[..])
      ensures Tracks(old(base.frame), forceFullFrame) && old(hasBackground) && !ParallelPath() && trackMethod == OnWholeImage
              ==> fish.Some? && allFish[..] == fish.value
      ensures !(Tracks(old(base.frame), forceFullFrame) && old(hasBackground) && !ParallelPath() && trackMethod == OnWholeImage)
              ==> allFish[..] == old(allFish[..])
    {
      if base.frame == 0 {
        Fill(base.foreground, (y, x) => 0);
      }
      var currentFish := NoFish(|wells|);
      if base.frame > base.framesInitialBackground && !forceFullFrame {
        if !hasBackground {
          // the background model does not exist yet: the call throws
          return None, NoUpdate;
        }
        var tracked := TrackFrame(difference, wellLab, plateLab);
        if tracked.None? {
          return None, NoUpdate;
        }
        currentFish := tracked.value;
      }
      bg := BackgroundRule(base.frame, base.framesInitialBackground, updateBackground, forceFullFrame, currentFish);
      if base.frame == 0 {
        hasBackground := true;
      }
      base.frame := WrapI32(base.frame + 1);
      fish := Some(currentFish);
    }
  }
}
