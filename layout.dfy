/** The grid layouts of `_save_gan` and `_save_img2img_gan`. Each call of
    `plt.subplot` (with its `imshow` and, for labelled grids, `text`) becomes
    one `Cell` of a trace; the trace and the path given to `savefig` make up
    a `Figure`. Drawing itself is not modelled. */
module Layout {
  import opened Wrappers
  import Text

  /** The batch a cell shows an image of: the single batch of `_save_gan`, or
      the first or second batch of `_save_img2img_gan`. */
  datatype Batch = Imgs | Img1 | Img2

  /** One subplot: its 1-based position in the grid, the image shown (batch
      and index into it) and the text label drawn over it, if any. */
  datatype Cell = Cell(pos: nat, batch: Batch, index: nat, caption: Option<int>)

  datatype Figure = Figure(rows: nat, cols: nat, cells: seq<Cell>, path: string)

  /** The file name of the snapshot for epoch `ep`. */
  function SnapshotName(ep: int): string
  {
    Text.FormatInt(ep) + ".png"
  }

  /** `"visual/{}".format(model_name) + "/{}.png".format(ep)`. */
  function SnapshotPath(name: string, ep: int): (path: string)
    ensures Text.Basename(path) == SnapshotName(ep)
    ensures Text.ParseInt(Text.BeforeFirstDot(Text.Basename(path))) == Some(ep)
  {
    var stem := Text.FormatInt(ep);
    assert SnapshotName(ep) == stem + "." + "png";
    Text.BasenameAfterSlash("visual/" + name, SnapshotName(ep));
    Text.BeforeDotOfStem(stem, "png");
    Text.ParseFormat(ep);
    "visual/" + name + "/" + SnapshotName(ep)
  }

  // ------------------------------------------------------------ _save_gan

  /** The cell drawn at step `k` of the nested loops of `_save_gan`: the outer
      loop runs over columns, so step `k` is column `k / 10`, row `k % 10`. */
  function GridCell(k: nat, showLabel: bool): Cell
    requires k < 100
  {
    var c, r := k / 10, k % 10;
    var i := r * 10 + c;
    Cell(i + 1, Imgs, i, if showLabel then Some(r) else None)
  }

  /** The trace of a complete `_save_gan` grid, in drawing order. */
  function GridCells(showLabel: bool): (cells: seq<Cell>)
    ensures |cells| == 100
  {
    seq(100, k requires 0 <= k < 100 => GridCell(k, showLabel))
  }

  /** The drawing step at which image `i` is shown: the transpose of `i`. */
  function GridStep(i: nat): nat
    requires i < 100
  {
    (i % 10) * 10 + i / 10
  }

  /** `_save_gan` draws images 0..99 each exactly once, image `i` at subplot
      `i + 1` of the 10x10 grid, and the step that draws image `i` is
      `GridStep(i)`. */
  lemma GridCoverage(showLabel: bool)
    ensures forall k :: 0 <= k < 100 ==>
      var cell := GridCells(showLabel)[k];
      cell.batch == Imgs && cell.index < 100 && cell.pos == cell.index + 1 &&
      GridStep(cell.index) == k
    ensures forall i :: 0 <= i < 100 ==> GridCells(showLabel)[GridStep(i)].index == i
    ensures forall k, k' :: 0 <= k < 100 && 0 <= k' < 100 && k != k' ==>
      GridCells(showLabel)[k].index != GridCells(showLabel)[k'].index
  {
    var cells := GridCells(showLabel);
    forall k | 0 <= k < 100
      ensures cells[k].index < 100 && GridStep(cells[k].index) == k
    {
      var c, r := k / 10, k % 10;
      assert cells[k].index == r * 10 + c;
      assert (r * 10 + c) % 10 == c && (r * 10 + c) / 10 == r;
    }
    forall i | 0 <= i < 100
      ensures cells[GridStep(i)].index == i
    {
      var k := GridStep(i);
      assert k / 10 == i % 10 && k % 10 == i / 10;
    }
  }

  /** With labels on, the label drawn in a cell is the row of that cell,
      which is the image index divided by 10. */
  lemma GridLabels(showLabel: bool)
    ensures forall k :: 0 <= k < 100 ==>
      GridCells(showLabel)[k].caption == if showLabel then Some(GridCells(showLabel)[k].index / 10) else None
  {
    var cells := GridCells(showLabel);
    forall k | 0 <= k < 100
      ensures cells[k].caption == if showLabel then Some(cells[k].index / 10) else None
    {
      var c, r := k / 10, k % 10;
      assert (r * 10 + c) / 10 == r;
    }
  }

  /** `_save_gan(model_name, ep, imgs, show_label)`: fails with IndexError
      unless the batch holds at least 100 images; otherwise draws the
      10x10 grid and saves it under visual/<name>/<ep>.png. */
  method SaveGrid<Img>(name: string, ep: int, imgs: seq<Img>, showLabel: bool) returns (out: Result<Figure>)
    ensures out.Ok? <==> |imgs| >= 100
    ensures out.Err? ==> out.error == IndexError
    ensures out.Ok? ==> out.value == Figure(10, 10, GridCells(showLabel), SnapshotPath(name, ep))
  {
    // nc = nr = 10
    var cells: seq<Cell> := [];
    for c := 0 to 10
      invariant |cells| == c * 10
      invariant forall k :: 0 <= k < |cells| ==> cells[k] == GridCell(k, showLabel)
      invariant forall k :: 0 <= k < |cells| ==> cells[k].index < |imgs|
    {
      for r := 0 to 10
        invariant |cells| == c * 10 + r
        invariant forall k :: 0 <= k < |cells| ==> cells[k] == GridCell(k, showLabel)
        invariant forall k :: 0 <= k < |cells| ==> cells[k].index < |imgs|
      {
        var i := r * 10 + c;
        if i >= |imgs| {
          assert i <= 99;
          return Err(IndexError);
        }
        assert GridCell(|cells|, showLabel) == Cell(i + 1, Imgs, i, if showLabel then Some(r) else None) by {
          assert (c * 10 + r) / 10 == c && (c * 10 + r) % 10 == r;
        }
        cells := cells + [Cell(i + 1, Imgs, i, if showLabel then Some(r) else None)];
      }
    }
    assert cells[99].index == 99;
    assert cells == GridCells(showLabel);
    out := Ok(Figure(10, 10, cells, SnapshotPath(name, ep)));
  }

  // ---------------------------------------------------- _save_img2img_gan

  /** The cell drawn at step `j` of `_save_img2img_gan`. Each pass of the
      inner loop draws two cells, so pass `t = j / 2` runs with counter
      `i == t`, column `c = 2 * (t / 10)`, row `r = t % 10` and
      `n = r * 20 + c`; its first cell shows `img1[t]` at `n + 1` and its
      second `img2[t]` at `n + 2`. */
  function PairCell(j: nat): Cell
    requires j < 200
  {
    var t := j / 2;
    var c, r := 2 * (t / 10), t % 10;
    var n := r * 20 + c;
    if j % 2 == 0 then Cell(n + 1, Img1, t, None) else Cell(n + 2, Img2, t, None)
  }

  /** The trace of a complete `_save_img2img_gan` grid, in drawing order. */
  function PairCells(): (cells: seq<Cell>)
    ensures |cells| == 200
  {
    seq(200, j requires 0 <= j < 200 => PairCell(j))
  }

  /** The drawing step that fills subplot `p` of the 10x20 grid. */
  function PairStep(p: nat): nat
    requires 1 <= p <= 200
  {
    var q := p - 1;
    var c, r := q % 20, q / 20;
    2 * ((c / 2) * 10 + r) + c % 2
  }

  /** Step `j` draws subplot `PairCells()[j].pos`, which lies in 1..200,
      and `PairStep` gives the step back. */
  lemma PairStepInverts(j: nat)
    requires j < 200
    ensures 1 <= PairCells()[j].pos <= 200 && PairStep(PairCells()[j].pos) == j
  {
    var t := j / 2;
    var c, r := 2 * (t / 10), t % 10;
    var q := r * 20 + c + j % 2;
    assert PairCells()[j].pos == q + 1;
    assert q / 20 == r && q % 20 == c + j % 2;
    assert t == (c / 2) * 10 + r;
  }

  /** Subplot `p` is the one drawn at step `PairStep(p)`. */
  lemma PairStepHits(p: nat)
    requires 1 <= p <= 200
    ensures PairStep(p) < 200 && PairCells()[PairStep(p)].pos == p
  {
    var q := p - 1;
    var c, r := q % 20, q / 20;
    var t := (c / 2) * 10 + r;
    var j := 2 * t + c % 2;
    assert PairStep(p) == j;
    assert j / 2 == t && j % 2 == c % 2;
    assert t / 10 == c / 2 && t % 10 == r;
    assert q == r * 20 + c;
    assert PairCell(j).pos == p;
  }

  /** The two cells of the pass with counter `i`, column `c` and row `r`. */
  lemma PairCellsOfPass(i: nat, c: nat, r: nat)
    requires c < 20 && c % 2 == 0 && r < 10 && i == (c / 2) * 10 + r
    ensures PairCell(2 * i) == Cell(r * 20 + c + 1, Img1, i, None)
    ensures PairCell(2 * i + 1) == Cell(r * 20 + c + 2, Img2, i, None)
  {
    assert (2 * i) / 2 == i && (2 * i) % 2 == 0;
    assert (2 * i + 1) / 2 == i && (2 * i + 1) % 2 == 1;
    assert i / 10 == c / 2 && i % 10 == r;
  }

  /** Every subplot 1..200 of the 10x20 grid is drawn exactly once: the map
      from step to subplot is a bijection whose inverse is `PairStep`. */
  lemma PairCoverage()
    ensures forall j :: 0 <= j < 200 ==>
      1 <= PairCells()[j].pos <= 200 && PairStep(PairCells()[j].pos) == j
    ensures forall p :: 1 <= p <= 200 ==> PairCells()[PairStep(p)].pos == p
    ensures forall j, j' :: 0 <= j < 200 && 0 <= j' < 200 && j != j' ==>
      PairCells()[j].pos != PairCells()[j'].pos
  {
    forall j | 0 <= j < 200
      ensures 1 <= PairCells()[j].pos <= 200 && PairStep(PairCells()[j].pos) == j
    {
      PairStepInverts(j);
    }
    forall p | 1 <= p <= 200
      ensures PairCells()[PairStep(p)].pos == p
    {
      PairStepHits(p);
    }
  }

  /** The pairing of `_save_img2img_gan`: step `j` shows image `j / 2` of the
      first batch when `j` is even and of the second batch when it is odd, so
      counter value `t` is used by exactly one pass (steps `2t` and `2t+1`),
      which draws `img1[t]` and then `img2[t]` in the subplot just right of
      it, in the same row. */
  lemma PairPlacement()
    ensures forall j :: 0 <= j < 200 ==>
      PairCells()[j].index == j / 2 && (PairCells()[j].batch == Img1 <==> j % 2 == 0) &&
      PairCells()[j].batch != Imgs && PairCells()[j].caption == None
    ensures forall t :: 0 <= t < 100 ==>
      PairCells()[2 * t + 1].pos == PairCells()[2 * t].pos + 1 &&
      PairCells()[2 * t].pos % 2 == 1
  {
  }

  /** `_save_img2img_gan(model_name, ep, img1, img2)`: fails with IndexError
      unless both batches hold at least 100 images; otherwise draws the
      10x20 grid of pairs and saves it under visual/<name>/<ep>.png. */
  method SaveImg2Img<Img>(name: string, ep: int, img1: seq<Img>, img2: seq<Img>) returns (out: Result<Figure>)
    ensures out.Ok? <==> |img1| >= 100 && |img2| >= 100
    ensures out.Err? ==> out.error == IndexError
    ensures out.Ok? ==> out.value == Figure(10, 20, PairCells(), SnapshotPath(name, ep))
  {
    // nc = 20 columns, nr = 10 rows
    var cells: seq<Cell> := [];
    var i := 0;
    var c := 0;
    while c < 20
      invariant 0 <= c <= 20 && c % 2 == 0
      invariant i == (c / 2) * 10
      invariant |cells| == 2 * i
      invariant forall j :: 0 <= j < |cells| ==> cells[j] == PairCell(j)
      invariant i <= |img1| && i <= |img2|
    {
      for r := 0 to 10
        invariant i == (c / 2) * 10 + r
        invariant |cells| == 2 * i
        invariant forall j :: 0 <= j < |cells| ==> cells[j] == PairCell(j)
        invariant i <= |img1| && i <= |img2|
      {
        var n := r * 20 + c;
        if i >= |img1| {
          return Err(IndexError);
        }
        PairCellsOfPass(i, c, r);
        cells := cells + [Cell(n + 1, Img1, i, None)];
        if i >= |img2| {
          return Err(IndexError);
        }
        cells := cells + [Cell(n + 2, Img2, i, None)];
        i := i + 1;
      }
      c := c + 2;
    }
    assert cells == PairCells();
    out := Ok(Figure(10, 20, cells, SnapshotPath(name, ep)));
  }
}
