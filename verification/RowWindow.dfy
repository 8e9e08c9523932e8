/**
 Showing a few rows of a long wrapped text (crates/micromux-tui/src/render.rs).

 The viewer renders only the lines around the viewport and skips some rows of the first one. What it
 shows has to be what a rendering of the whole text would show there.
 */
module RowWindow {
  import opened Prelude

  /** What fits a `u16`. */
  const OFFSET_CAP: nat := 65535

  /** How one line is drawn: on one row, or wrapped at a width, which the layout library decides. */
  datatype Line<Row> = Line(flat: Row, wrapped: nat -> seq<Row>)

  function RowsOf<Row>(line: Line<Row>, wrap: bool, width: nat): seq<Row> {
    if wrap then line.wrapped(width) else [line.flat]
  }

  function Flatten<Row>(blocks: seq<seq<Row>>): seq<Row> {
    if blocks == [] then [] else Flatten(blocks[..|blocks| - 1]) + blocks[|blocks| - 1]
  }

  function Drawn<Row>(text: seq<Line<Row>>, wrap: bool, width: nat): (r: seq<seq<Row>>)
    ensures |r| == |text|
    ensures forall i :: 0 <= i < |r| ==> r[i] == if wrap then text[i].wrapped(width) else [text[i].flat]
  {
    seq(|text|, i requires 0 <= i < |text| => RowsOf(text[i], wrap, width))
  }

  /** The rows a pane shows: at most `height` of them, after the first `offset`. */
  function Slice<Row>(rows: seq<Row>, offset: nat, height: nat): seq<Row> {
    rows[Min(offset, |rows|)..Min(offset + height, |rows|)]
  }

  // ---------------------------------------------------------------- row counts

  lemma {:induction false} FlattenConcat<Row>(a: seq<seq<Row>>, b: seq<seq<Row>>)
    ensures Flatten(a + b) == Flatten(a) + Flatten(b)
    decreases |b|
  {
    if b == [] {
      assert a + b == a;
    } else {
      var n := |b| - 1;
      FlattenConcat(a, b[..n]);
      assert (a + b)[..|a| + n] == a + b[..n];
      ConcatAssociative(Flatten(a), Flatten(b[..n]), b[n]);
    }
  }

  /** The lines before the window, the window, and the lines after it. */
  lemma {:induction false} FlattenThree<Row>(blocks: seq<seq<Row>>, i: nat, j: nat)
    requires i <= j <= |blocks|
    ensures Flatten(blocks[..j]) == Flatten(blocks[..i]) + Flatten(blocks[i..j])
    ensures Flatten(blocks) == (Flatten(blocks[..i]) + Flatten(blocks[i..j])) + Flatten(blocks[j..])
  {
    FlattenConcat(blocks[..i], blocks[i..j]);
    FlattenConcat(blocks[..j], blocks[j..]);
    hide Flatten;
    assert blocks[..j] == blocks[..i] + blocks[i..j] && blocks == blocks[..j] + blocks[j..];
  }

  /** `starts` holds the number of rows before each line, and `total` the number of all rows. */
  ghost predicate IsIndexOf<Row>(starts: seq<nat>, total: nat, blocks: seq<seq<Row>>) {
    && |starts| == |blocks| && total == |Flatten(blocks)|
    && forall i :: 0 <= i < |starts| ==> starts[i] == |Flatten(blocks[..i])|
  }

  lemma StartsAscend<Row>(starts: seq<nat>, total: nat, blocks: seq<seq<Row>>, i: nat, j: nat)
    requires IsIndexOf(starts, total, blocks) && i <= j < |starts|
    ensures starts[i] <= starts[j] <= total
  {
    FlattenThree(blocks, i, j);
    FlattenThree(blocks, j, j);
  }

  // ---------------------------------------------------------------- the window

  datatype Window = Window(start: nat, end: nat, localOffset: nat)

  /** `source_window`, with the local offset before it is cut down to sixteen bits. */
  function WindowOf(starts: seq<nat>, offset: nat, height: nat): Window {
    if starts == [] then Window(0, 0, 0)
    else
      var start := SaturatingSub(PartitionPoint(starts, (s: nat) => s <= offset), 1);
      var consumed := starts[start];
      var endRow := offset + Max(height, 1);
      var end := Min(Max(PartitionPoint(starts, (s: nat) => s < endRow), start + 1), |starts|);
      Window(start, end, SaturatingSub(offset, consumed))
  }

  function Clipped(w: Window): Window {
    w.(localOffset := Min(w.localOffset, OFFSET_CAP))
  }

  /** What is drawn: the lines of the window, without the first `localOffset` rows. */
  function Shown<Row>(blocks: seq<seq<Row>>, w: Window, height: nat): seq<Row>
    requires w.start <= w.end <= |blocks|
  {
    Slice(Flatten(blocks[w.start..w.end]), w.localOffset, height)
  }

  /**
   The first line is the last that starts no later than the offset, and the rest start before the viewport
   ends: no line is drawn that shows nothing.
   */
  lemma WindowBounds<Row>(starts: seq<nat>, total: nat, blocks: seq<seq<Row>>, offset: nat, height: nat)
    requires IsIndexOf(starts, total, blocks) && starts != []
    ensures var w := WindowOf(starts, offset, height);
      && w.start < w.end <= |starts| && starts[w.start] <= offset && w.localOffset == offset - starts[w.start]
      && (w.start + 1 < |starts| ==> offset < starts[w.start + 1])
      && (w.end < |starts| ==> offset + height <= starts[w.end])
      && forall i :: w.start < i < w.end ==> starts[i] < offset + Max(height, 1)
  {
    hide Flatten;
    forall i, j | 0 <= i < j < |starts| ensures starts[i] <= starts[j] {
      StartsAscend(starts, total, blocks, i, j);
    }
    assert blocks[..0] == [] && starts[0] == 0 by {
      FlattenNothing<Row>();
    }
    var endRow := offset + Max(height, 1);
    assert Partitioned(starts, (s: nat) => s <= offset);
    assert Partitioned(starts, (s: nat) => s < endRow);
  }

  lemma FlattenNothing<Row>()
    ensures Flatten<Row>([]) == []
  {
  }

  lemma SliceOfMiddle<Row>(before: seq<Row>, middle: seq<Row>, after: seq<Row>, offset: nat, height: nat)
    requires |before| <= offset
    requires after == [] || offset + height <= |before| + |middle|
    ensures Slice((before + middle) + after, offset, height) == Slice(middle, offset - |before|, height)
  {
    var all, d := (before + middle) + after, |before|;
    if after == [] {
      assert all == before + middle;
    }
    var from, to := Min(offset - d, |middle|), Min(offset - d + height, |middle|);
    assert all[d + from..d + to] == middle[from..to];
  }

  /** Without the cut to sixteen bits, the window shows the rows of the whole text. */
  lemma {:induction false} WindowIsSlice<Row>(
      starts: seq<nat>, total: nat, blocks: seq<seq<Row>>, offset: nat, height: nat)
    requires IsIndexOf(starts, total, blocks)
    ensures var w := WindowOf(starts, offset, height);
      && w.start <= w.end <= |blocks|
      && Shown(blocks, w, height) == Slice(Flatten(blocks), offset, height)
  {
    if starts == [] {
      assert blocks[0..0] == blocks;
    } else {
      var w := WindowOf(starts, offset, height);
      WindowBounds(starts, total, blocks, offset, height);
      FlattenThree(blocks, w.start, w.end);
      var before, middle, after :=
        Flatten(blocks[..w.start]), Flatten(blocks[w.start..w.end]), Flatten(blocks[w.end..]);
      assert w.end == |starts| ==> blocks[w.end..] == [];
      assert w.end == |starts| ==> after == [];
      hide WindowOf, Flatten, Slice;
      SliceOfMiddle(before, middle, after, offset, height);
    }
  }

  ghost predicate RowsFit<Row>(blocks: seq<seq<Row>>) {
    forall i :: 0 <= i < |blocks| ==> |blocks[i]| <= OFFSET_CAP
  }

  /** The cut changes nothing when the offset into the first line fits, or no row is left to show. */
  ghost predicate CutIsHarmless<Row>(blocks: seq<seq<Row>>, w: Window)
    requires w.start <= w.end <= |blocks|
  {
    w.localOffset <= OFFSET_CAP || |Flatten(blocks[w.start..w.end])| <= OFFSET_CAP
  }

  /** Lines of at most 65535 rows are always shown right, whatever the offset. */
  lemma ShortLinesFit<Row>(starts: seq<nat>, total: nat, blocks: seq<seq<Row>>, offset: nat, height: nat)
    requires IsIndexOf(starts, total, blocks) && RowsFit(blocks)
    ensures var w := WindowOf(starts, offset, height);
      w.start <= w.end <= |blocks| && CutIsHarmless(blocks, w)
  {
    if starts != [] {
      var w := WindowOf(starts, offset, height);
      WindowBounds(starts, total, blocks, offset, height);
      hide WindowOf;
      if w.start + 1 < |starts| {
        FlattenThree(blocks, w.start, w.start + 1);
        assert blocks[w.start..w.start + 1] == [blocks[w.start]];
        OneBlock(blocks[w.start]);
      } else {
        assert blocks[w.start..w.end] == [blocks[w.start]];
        OneBlock(blocks[w.start]);
      }
    }
  }

  lemma OneBlock<Row>(block: seq<Row>)
    ensures Flatten([block]) == block
  {
    assert [block][..0] == [];
    assert Flatten<Row>([]) + block == block;
  }

  /** The rows that are shown are the right ones whenever the cut is harmless. */
  lemma {:induction false} ClippedWindowIsSlice<Row>(
      starts: seq<nat>, total: nat, blocks: seq<seq<Row>>, offset: nat, height: nat)
    requires IsIndexOf(starts, total, blocks)
    ensures var w := WindowOf(starts, offset, height);
      && w.start <= w.end <= |blocks|
      && (CutIsHarmless(blocks, w) ==> Shown(blocks, Clipped(w), height) == Slice(Flatten(blocks), offset, height))
  {
    WindowIsSlice(starts, total, blocks, offset, height);
    var w := WindowOf(starts, offset, height);
    hide WindowOf, Flatten, IsIndexOf;
    var middle := Flatten(blocks[w.start..w.end]);
    if CutIsHarmless(blocks, w) && w.localOffset > OFFSET_CAP {
      assert Slice(middle, w.localOffset, height) == [];
      assert Slice(middle, OFFSET_CAP, height) == [];
    }
  }

  /** What `SourceWindow` promises of the window that it selects. */
  lemma {:induction false} WindowShows<Row>(
      starts: seq<nat>, total: nat, blocks: seq<seq<Row>>, offset: nat, height: nat)
    requires IsIndexOf(starts, total, blocks)
    ensures var w := Clipped(WindowOf(starts, offset, height));
      && w.start <= w.end <= |blocks| && w.localOffset <= OFFSET_CAP
      && (RowsFit(blocks) || w.localOffset < OFFSET_CAP ==>
            Shown(blocks, w, height) == Slice(Flatten(blocks), offset, height))
      && (starts != [] ==>
            && w.start < |starts| && w.end <= |starts|
            && starts[w.start] <= offset && (w.start + 1 < |starts| ==> offset < starts[w.start + 1])
            && forall i :: w.start < i < w.end ==> starts[i] < offset + Max(height, 1))
  {
    ClippedWindowIsSlice(starts, total, blocks, offset, height);
    if starts != [] {
      WindowBounds(starts, total, blocks, offset, height);
    }
    hide WindowOf, Flatten, Shown, Slice;
    if RowsFit(blocks) {
      ShortLinesShown(starts, total, blocks, offset, height);
    }
  }

  /** What the viewer shows of a text at an offset. */
  function ShownAt<Row>(starts: seq<nat>, blocks: seq<seq<Row>>, offset: nat, height: nat): seq<Row> {
    var w := Clipped(WindowOf(starts, offset, height));
    if w.start <= w.end <= |blocks| then Shown(blocks, w, height) else []
  }

  lemma {:induction false} ShortLinesShown<Row>(
      starts: seq<nat>, total: nat, blocks: seq<seq<Row>>, offset: nat, height: nat)
    requires IsIndexOf(starts, total, blocks) && RowsFit(blocks)
    ensures var w := Clipped(WindowOf(starts, offset, height));
      w.start <= w.end <= |blocks| && Shown(blocks, w, height) == Slice(Flatten(blocks), offset, height)
  {
    ClippedWindowIsSlice(starts, total, blocks, offset, height);
    ShortLinesFit(starts, total, blocks, offset, height);
    hide WindowOf, Shown, Slice, Flatten, IsIndexOf, RowsFit, CutIsHarmless;
  }

  /** And only then, where the rows can be told apart. */
  lemma {:induction false} CutShowsExactly<Row>(
      starts: seq<nat>, total: nat, blocks: seq<seq<Row>>, offset: nat, height: nat)
    requires IsIndexOf(starts, total, blocks) && Distinct(Flatten(blocks)) && height > 0
    ensures var w := WindowOf(starts, offset, height);
      && w.start <= w.end <= |blocks|
      && (Shown(blocks, Clipped(w), height) == Slice(Flatten(blocks), offset, height) <==> CutIsHarmless(blocks, w))
  {
    ClippedWindowIsSlice(starts, total, blocks, offset, height);
    WindowIsSlice(starts, total, blocks, offset, height);
    var w := WindowOf(starts, offset, height);
    FlattenThree(blocks, w.start, w.end);
    var before, middle, after := Flatten(blocks[..w.start]), Flatten(blocks[w.start..w.end]), Flatten(blocks[w.end..]);
    hide WindowOf, Flatten, IsIndexOf;
    DistinctMiddle(before, middle, after);
    if !CutIsHarmless(blocks, w) {
      DistinctSlices(middle, w.localOffset, OFFSET_CAP, height);
    }
  }

  /**
   A line of 65537 rows, scrolled to the last of them: the one before it is shown. No shipped text has
   such a line, since appended log lines are cut to 16 KiB (crates/micromux/src/model.rs:37,1306) and a
   live terminal's rows are lines of their own (crates/micromux/src/scheduler/pty.rs:1448-1455).
   */
  lemma TallLineShowsRowBefore(starts: seq<nat>, total: nat, blocks: seq<seq<nat>>)
    requires blocks == [seq(OFFSET_CAP + 2, i => i)] && IsIndexOf(starts, total, blocks)
    ensures ShownAt(starts, blocks, OFFSET_CAP + 1, 1) == [OFFSET_CAP]
    ensures Slice(Flatten(blocks), OFFSET_CAP + 1, 1) == [OFFSET_CAP + 1]
  {
    var w := WindowOf(starts, OFFSET_CAP + 1, 1);
    WindowBounds(starts, total, blocks, OFFSET_CAP + 1, 1);
    assert blocks[..0] == [] && starts[0] == 0 by {
      FlattenNothing<nat>();
    }
    OneBlock(blocks[0]);
    hide WindowOf, Flatten;
    assert w == Window(0, 1, OFFSET_CAP + 1) && blocks[0..1] == blocks == [blocks[0]];
    OneRow(blocks[0], OFFSET_CAP);
    OneRow(blocks[0], OFFSET_CAP + 1);
  }

  lemma OneRow(rows: seq<nat>, offset: nat)
    requires offset < |rows|
    ensures Slice(rows, offset, 1) == [rows[offset]]
  {
  }

  lemma DistinctMiddle<Row>(before: seq<Row>, middle: seq<Row>, after: seq<Row>)
    requires Distinct((before + middle) + after)
    ensures Distinct(middle)
  {
    var all, d := (before + middle) + after, |before|;
    assert forall i :: 0 <= i < |middle| ==> middle[i] == all[d + i];
  }

  lemma DistinctSlices<Row>(rows: seq<Row>, a: nat, b: nat, height: nat)
    requires Distinct(rows) && b < a && b < |rows| && height > 0
    ensures Slice(rows, a, height) != Slice(rows, b, height)
  {
    assert Slice(rows, b, height)[0] == rows[b];
    assert Slice(rows, a, height) != [] ==> Slice(rows, a, height)[0] == rows[a];
  }

  // ---------------------------------------------------------------- the code

  class RenderedLineIndex {
    var starts: seq<nat>
    var totalLines: nat

    constructor ()
      ensures starts == [] && totalLines == 0
    {
      starts, totalLines := [], 0;
    }

    ghost predicate Describes<Row>(text: seq<Line<Row>>, wrap: bool, width: nat)
      reads this
    {
      IsIndexOf(starts, totalLines, Drawn(text, wrap, width))
    }

    method Rebuild<Row>(text: seq<Line<Row>>, wrap: bool, width: nat)
      modifies this
      ensures Describes(text, wrap, width)
    {
      starts := [];
      var rendered := 0;
      ghost var blocks := Drawn(text, wrap, width);
      for i := 0 to |text|
        invariant |starts| == i && rendered == |Flatten(blocks[..i])|
        invariant forall k :: 0 <= k < i ==> starts[k] == |Flatten(blocks[..k])|
      {
        assert blocks[..i + 1][..i] == blocks[..i];
        starts := starts + [rendered];
        var height := if wrap then |text[i].wrapped(width)| else 1;
        rendered := rendered + height;
      }
      assert blocks[..|text|] == blocks;
      totalLines := rendered;
    }

    /** The lines and the local offset that show, of any text so indexed, the rows at an offset. */
    method SourceWindow<Row>(offset: nat, viewportHeight: nat, ghost blocks: seq<seq<Row>>) returns (w: Window)
      requires IsIndexOf(starts, totalLines, blocks)
      ensures w == Clipped(WindowOf(starts, offset, viewportHeight))
      ensures w.start <= w.end <= |blocks| && w.localOffset <= OFFSET_CAP
      ensures RowsFit(blocks) ==> Shown(blocks, w, viewportHeight) == Slice(Flatten(blocks), offset, viewportHeight)
      ensures w.localOffset < OFFSET_CAP ==>
        Shown(blocks, w, viewportHeight) == Slice(Flatten(blocks), offset, viewportHeight)
      ensures starts != [] ==>
        && starts[w.start] <= offset && (w.start + 1 < |starts| ==> offset < starts[w.start + 1])
        && forall i :: w.start < i < w.end ==> starts[i] < offset + Max(viewportHeight, 1)
    {
      WindowShows(starts, totalLines, blocks, offset, viewportHeight);
      hide Flatten, Shown, Slice, IsIndexOf, RowsFit, PartitionPoint;
      if starts == [] {
        return Window(0, 0, 0);
      }
      var start := SaturatingSub(PartitionPoint(starts, (s: nat) => s <= offset), 1);
      var consumed := starts[start];
      var endRow := offset + Max(viewportHeight, 1);
      var end := Min(Max(PartitionPoint(starts, (s: nat) => s < endRow), start + 1), |starts|);
      return Window(start, end, Min(SaturatingSub(offset, consumed), OFFSET_CAP));
    }
  }

  class LogView {
    var scrollOffset: nat
    var followTail: bool
    var wrap: bool

    constructor ()
      ensures scrollOffset == 0 && followTail && !wrap
    {
      scrollOffset, followTail, wrap := 0, true, false;
    }

    /** `render`, as far as rows go: clamp the offset, pick the window, draw it. */
    method Render<Row>(index: RenderedLineIndex, text: seq<Line<Row>>, width: nat, viewportHeight: nat)
      returns (shown: seq<Row>, numLines: nat)
      requires index.Describes(text, wrap, width)
      modifies this`scrollOffset
      ensures var (blocks, rows) := (Drawn(text, wrap, width), Flatten(Drawn(text, wrap, width)));
        && numLines == |rows|
        && scrollOffset == (if followTail then SaturatingSub(|rows|, viewportHeight)
                            else Min(old(scrollOffset), SaturatingSub(|rows|, viewportHeight)))
        && shown == ShownAt(index.starts, blocks, scrollOffset, viewportHeight)
        && (RowsFit(blocks) ==>
              && |shown| == Min(viewportHeight, |rows|) && scrollOffset + |shown| <= |rows|
              && shown == rows[scrollOffset..scrollOffset + |shown|]
              && (followTail ==> shown == rows[|rows| - |shown|..]))
    {
      hide WindowOf, Flatten, Slice, Drawn, RowsFit, CutIsHarmless, Shown;
      numLines := index.totalLines;
      var maxOff := SaturatingSub(numLines, viewportHeight);
      if followTail {
        scrollOffset := maxOff;
      } else {
        scrollOffset := Min(scrollOffset, maxOff);
      }
      ghost var blocks := Drawn(text, wrap, width);
      var w := index.SourceWindow(scrollOffset, viewportHeight, blocks);
      shown := DrawWindow(text, wrap, width, w, viewportHeight);
      SliceInside(Flatten(blocks), scrollOffset, viewportHeight);
    }
  }

  lemma SliceInside<Row>(rows: seq<Row>, offset: nat, height: nat)
    requires offset <= SaturatingSub(|rows|, height)
    ensures var shown := Slice(rows, offset, height);
      |shown| == Min(height, |rows|) && offset + |shown| <= |rows| && shown == rows[offset..offset + |shown|]
    ensures offset == SaturatingSub(|rows|, height) ==>
      Slice(rows, offset, height) == rows[|rows| - Min(height, |rows|)..]
  {
  }

  /** The borrowed lines, drawn and scrolled by the layout library. */
  function DrawWindow<Row>(text: seq<Line<Row>>, wrap: bool, width: nat, w: Window, height: nat): (shown: seq<Row>)
    requires w.start <= w.end <= |text|
    ensures shown == Shown(Drawn(text, wrap, width), w, height)
  {
    assert Drawn(text[w.start..w.end], wrap, width) == Drawn(text, wrap, width)[w.start..w.end];
    Slice(Flatten(Drawn(text[w.start..w.end], wrap, width)), w.localOffset, height)
  }
}
