/** `save_gan(model, ep, **kwargs)`: the lower-cased class name of the model
    selects one of five ways of building the batches to draw, and the batches
    go to `_save_gan` (one 10x10 grid) or `_save_img2img_gan` (a 10x20 grid
    of pairs). The model's inference entry points are functions of the model
    value; the outcome records which of them were invoked, and with what. */
module Dispatch {
  import opened Wrappers
  import Text
  import Layout
  import Occlusion

  /** The five rendering strategies. */
  datatype Kind =
    | Unconditional       // gan, wgan, wgangp, lsgan, wgandiv
    | ClassConditional    // cgan, acgan
    | InfoCode            // infogan
    | ContextConditional  // ccgan
    | CycleConsistent     // cyclegan

  /** The names each strategy serves, as a table. */
  function Names(k: Kind): set<string>
  {
    match k
    case Unconditional => {"gan", "wgan", "wgangp", "lsgan", "wgandiv"}
    case ClassConditional => {"cgan", "acgan"}
    case InfoCode => {"infogan"}
    case ContextConditional => {"ccgan"}
    case CycleConsistent => {"cyclegan"}
  }

  /** The if-chain of `save_gan` on the lower-cased class name. It selects a
      strategy exactly for the names of the table, so no name is served by
      two strategies, and selects none for any other name. */
  function KindOf(name: string): (r: Option<Kind>)
    ensures forall k :: r == Some(k) <==> name in Names(k)
    ensures r == None <==> forall k :: name !in Names(k)
  {
    if name in ["gan", "wgan", "wgangp", "lsgan", "wgandiv"] then Some(Unconditional)
    else if name == "cgan" || name == "acgan" then Some(ClassConditional)
    else if name in ["infogan"] then Some(InfoCode)
    else if name == "ccgan" then Some(ContextConditional)
    else if name == "cyclegan" then Some(CycleConsistent)
    else None
  }

  /** What `model.predict` is given: conditioning labels (cgan, acgan), the
      labels of an infogan code (its continuous style part is not modelled)
      or a batch of occluded images (ccgan). */
  datatype PredictInput<Img> = Labels(labels: seq<int>) | Code(labels: seq<int>) | Images(batch: seq<Img>)

  /** One call into the trained model. */
  datatype Inference<Img> =
    | Call(count: nat)          // model.call(count, training=False)
    | Predict(input: PredictInput<Img>)
    | GCall(batch: seq<Img>)    // model.g.call(batch, training=False)
    | FCall(batch: seq<Img>)    // model.f.call(batch, training=False)

  /** The trained model as `save_gan` sees it: its class name, the attributes
      some branches read and its inference entry points. */
  datatype Gan<!Img> = Gan(
    className: string,
    labelDim: int,
    maskRange: (int, int),
    imgShape0: nat,
    call: nat -> seq<Img>,
    predict: PredictInput<Img> -> seq<Img>,
    g: seq<Img> -> seq<Img>,
    f: seq<Img> -> seq<Img>)

  /** The call `save_gan` ends with. */
  datatype Render<Img> =
    | Grid(name: string, ep: int, imgs: seq<Img>, showLabel: bool)      // _save_gan
    | Pairs(name: string, ep: int, img1: seq<Img>, img2: seq<Img>)      // _save_img2img_gan

  datatype Outcome<Img> = Outcome(invoked: seq<Inference<Img>>, result: Result<Render<Img>>)

  /** `s[:n]`. */
  function Take<T>(s: seq<T>, n: nat): (t: seq<T>)
    ensures |t| == if |s| < n then |s| else n
    ensures forall i :: 0 <= i < |t| ==> t[i] == s[i]
  {
    if |s| <= n then s else s[..n]
  }

  /** `np.arange(0, count).repeat(10)`: each of 0 .. count-1 ten times in a row. */
  function RepeatedLabels(count: int): (labels: seq<int>)
    ensures |labels| == 10 * (if count < 0 then 0 else count)
    ensures forall i :: 0 <= i < |labels| ==> labels[i] == i / 10
    decreases count
  {
    if count <= 0 then [] else RepeatedLabels(count - 1) + seq(10, _ => count - 1)
  }

  /** Both keyword images the cyclegan branch needs are present. */
  predicate HasCycleInputs<Img>(kwargs: map<string, seq<Img>>)
  {
    "img6" in kwargs && "img9" in kwargs
  }

  /** A keyword image the selected strategy needs is missing. */
  predicate MissingInputs<Img>(k: Kind, kwargs: map<string, seq<Img>>)
  {
    (k == ContextConditional && "img" !in kwargs) ||
    (k == CycleConsistent && !HasCycleInputs(kwargs))
  }

  /** The random draws of the ccgan branch lie in the ranges numpy draws
      them from (the model's mask_range and img_shape[0]). */
  predicate DrawsFit<Img>(m: Gan<Img>, kwargs: map<string, seq<Img>>, d: Occlusion.Draws)
  {
    (Text.Lower(m.className) == "ccgan" && "img" in kwargs) ==>
      Occlusion.ValidDraws(d, |Take(kwargs["img"], 100)|, m.maskRange.0, m.maskRange.1, m.imgShape0)
  }

  /** The occluded inputs of the ccgan branch: `input_img * mask`, image by
      image, where `occlude` multiplies an image by its mask plane. */
  function Occluded<Img>(input: seq<Img>, d: Occlusion.Draws, occlude: (Img, Occlusion.Square) -> Img): (masked: seq<Img>)
    requires |d.widths| == |input| && |d.corners| == |input|
    ensures |masked| == |input|
    ensures forall i :: 0 <= i < |input| ==> masked[i] == occlude(input[i], Occlusion.SquareOf(d, i))
  {
    seq(|input|, i requires 0 <= i < |input| => occlude(input[i], Occlusion.SquareOf(d, i)))
  }

  /** `save_gan(model, ep, **kwargs)`. It raises ValueError, before any call
      into the model, for an unknown name or a missing keyword image, and
      otherwise invokes the model and ends in one of the two renderers. */
  function SaveGan<Img>(m: Gan<Img>, ep: int, kwargs: map<string, seq<Img>>,
                        draws: Occlusion.Draws, occlude: (Img, Occlusion.Square) -> Img): (o: Outcome<Img>)
    requires DrawsFit(m, kwargs, draws)
    ensures o.result.Err? <==> o.invoked == []
    ensures o.result.Ok? <==>
      KindOf(Text.Lower(m.className)).Some? && !MissingInputs(KindOf(Text.Lower(m.className)).value, kwargs)
    ensures KindOf(Text.Lower(m.className)) == None ==> o.result == Err(ValueError(Text.Lower(m.className)))
    ensures KindOf(Text.Lower(m.className)).Some? && MissingInputs(KindOf(Text.Lower(m.className)).value, kwargs) ==>
      o.result == Err(ValueError(""))
    ensures o.result.Ok? ==> o.result.value.name == Text.Lower(m.className) && o.result.value.ep == ep
  {
    var name := Text.Lower(m.className);
    match KindOf(name)
    case None => Outcome([], Err(ValueError(name)))
    case Some(Unconditional) =>
      Outcome([Call(100)], Ok(Grid(name, ep, m.call(100), false)))
    case Some(ClassConditional) =>
      var labels := RepeatedLabels(10);
      Outcome([Predict(Labels(labels))], Ok(Grid(name, ep, m.predict(Labels(labels)), true)))
    case Some(InfoCode) =>
      var labels := RepeatedLabels(m.labelDim);
      Outcome([Predict(Code(labels))], Ok(Grid(name, ep, m.predict(Code(labels)), false)))
    case Some(ContextConditional) =>
      if "img" !in kwargs then Outcome([], Err(ValueError("")))
      else
        var input := Take(kwargs["img"], 100);
        var masked := Occluded(input, draws, occlude);
        Outcome([Predict(Images(masked))], Ok(Pairs(name, ep, masked, m.predict(Images(masked)))))
    case Some(CycleConsistent) =>
      if !HasCycleInputs(kwargs) then Outcome([], Err(ValueError("")))
      else
        var img6, img9 := Take(kwargs["img6"], 50), Take(kwargs["img9"], 50);
        Outcome([GCall(img6), FCall(img9)], Ok(Pairs(name, ep, img6 + img9, m.g(img6) + m.f(img9))))
  }

  /** For cgan and acgan the label drawn in each cell of the grid is the
      label the image in that cell was generated for. */
  lemma ShownLabelIsConditioningLabel<Img>(m: Gan<Img>, ep: int, kwargs: map<string, seq<Img>>,
                                           draws: Occlusion.Draws, occlude: (Img, Occlusion.Square) -> Img)
    requires KindOf(Text.Lower(m.className)) == Some(ClassConditional)
    requires DrawsFit(m, kwargs, draws)
    ensures var o := SaveGan(m, ep, kwargs, draws, occlude);
      o.invoked == [Predict(Labels(RepeatedLabels(10)))] && o.result.Ok? &&
      o.result.value.Grid? && o.result.value.showLabel &&
      o.result.value.imgs == m.predict(Labels(RepeatedLabels(10))) &&
      forall k :: 0 <= k < 100 ==>
        Layout.GridCells(true)[k].index < |RepeatedLabels(10)| &&
        Layout.GridCells(true)[k].caption == Some(RepeatedLabels(10)[Layout.GridCells(true)[k].index])
  {
    Layout.GridCoverage(true);
    Layout.GridLabels(true);
  }

  /** The unlabelled grids: the gan family asks the model for 100 samples
      and draws them; infogan asks it for the images of the label code
      `arange(label_dim).repeat(10)` and draws them. */
  lemma UnlabelledGrids<Img>(m: Gan<Img>, ep: int, kwargs: map<string, seq<Img>>,
                             draws: Occlusion.Draws, occlude: (Img, Occlusion.Square) -> Img)
    requires DrawsFit(m, kwargs, draws)
    ensures var o := SaveGan(m, ep, kwargs, draws, occlude);
      Text.Lower(m.className) in Names(Unconditional) ==>
        o == Outcome([Call(100)], Ok(Grid(Text.Lower(m.className), ep, m.call(100), false)))
    ensures var o := SaveGan(m, ep, kwargs, draws, occlude);
      var labels := RepeatedLabels(m.labelDim);
      Text.Lower(m.className) == "infogan" ==>
        o == Outcome([Predict(Code(labels))], Ok(Grid("infogan", ep, m.predict(Code(labels)), false))) &&
        forall i :: 0 <= i < |labels| ==> labels[i] == i / 10 && labels[i] < m.labelDim
  {
  }

  /** The pairs of the cyclegan grid: the first 50 pairs are an image of
      `img6` and its translation by `g`, the next 50 an image of `img9` and
      its translation by `f`, provided both keyword batches hold 50 images and
      both generators map a batch to a batch of the same length. */
  lemma CyclePairs<Img>(m: Gan<Img>, ep: int, kwargs: map<string, seq<Img>>,
                        draws: Occlusion.Draws, occlude: (Img, Occlusion.Square) -> Img)
    requires KindOf(Text.Lower(m.className)) == Some(CycleConsistent) && HasCycleInputs(kwargs)
    requires |kwargs["img6"]| >= 50 && |kwargs["img9"]| >= 50
    requires forall b: seq<Img> :: |m.g(b)| == |b| && |m.f(b)| == |b|
    requires DrawsFit(m, kwargs, draws)
    ensures var o := SaveGan(m, ep, kwargs, draws, occlude);
      o.invoked == [GCall(kwargs["img6"][..50]), FCall(kwargs["img9"][..50])] &&
      o.result.Ok? && o.result.value.Pairs? &&
      |o.result.value.img1| == 100 && |o.result.value.img2| == 100 &&
      (forall k :: 0 <= k < 50 ==>
        o.result.value.img1[k] == kwargs["img6"][k] &&
        o.result.value.img2[k] == m.g(kwargs["img6"][..50])[k]) &&
      (forall k :: 50 <= k < 100 ==>
        o.result.value.img1[k] == kwargs["img9"][k - 50] &&
        o.result.value.img2[k] == m.f(kwargs["img9"][..50])[k - 50])
  {
    assert Take(kwargs["img6"], 50) == kwargs["img6"][..50];
    assert Take(kwargs["img9"], 50) == kwargs["img9"][..50];
  }

  /** The cyclegan branch, whatever the batch sizes: `g` is called on the
      first 50 images of `img6`, then `f` on the first 50 of `img9`, and
      these are the only calls into the model. */
  lemma CycleCalls<Img>(m: Gan<Img>, ep: int, kwargs: map<string, seq<Img>>,
                        draws: Occlusion.Draws, occlude: (Img, Occlusion.Square) -> Img)
    requires KindOf(Text.Lower(m.className)) == Some(CycleConsistent) && HasCycleInputs(kwargs)
    requires DrawsFit(m, kwargs, draws)
    ensures var o := SaveGan(m, ep, kwargs, draws, occlude);
      o.invoked == [GCall(Take(kwargs["img6"], 50)), FCall(Take(kwargs["img9"], 50))] &&
      o.result.Ok? && o.result.value.Pairs? &&
      o.result.value.img1 == Take(kwargs["img6"], 50) + Take(kwargs["img9"], 50) &&
      o.result.value.img2 == m.g(Take(kwargs["img6"], 50)) + m.f(Take(kwargs["img9"], 50))
  {
  }

  /** The pairs of the ccgan grid: pair `k` is input image `k` under its
      occlusion mask and the model's reconstruction from the whole occluded
      batch, and every occluded square lies inside its image. */
  lemma ContextPairs<Img>(m: Gan<Img>, ep: int, kwargs: map<string, seq<Img>>,
                          draws: Occlusion.Draws, occlude: (Img, Occlusion.Square) -> Img)
    requires KindOf(Text.Lower(m.className)) == Some(ContextConditional) && "img" in kwargs
    requires DrawsFit(m, kwargs, draws)
    ensures var o := SaveGan(m, ep, kwargs, draws, occlude);
      var n := if |kwargs["img"]| < 100 then |kwargs["img"]| else 100;
      o.result.Ok? && o.result.value.Pairs? && |o.result.value.img1| == n &&
      o.invoked == [Predict(Images(o.result.value.img1))] &&
      o.result.value.img2 == m.predict(Images(o.result.value.img1)) &&
      forall k :: 0 <= k < n ==>
        o.result.value.img1[k] == occlude(kwargs["img"][k], Occlusion.SquareOf(draws, k)) &&
        Occlusion.SquareOf(draws, k).x0 + Occlusion.SquareOf(draws, k).w < m.imgShape0 &&
        Occlusion.SquareOf(draws, k).y0 + Occlusion.SquareOf(draws, k).w < m.imgShape0
  {
    assert Text.Lower(m.className) == "ccgan";
  }

  /** The grid renderers accept the batches of a successful dispatch exactly
      when they hold enough images: 100 for a grid, 100 on both sides for
      the pairs (so ccgan needs 100 keyword images and cyclegan 50 of each). */
  lemma RenderNeedsFullBatches<Img>(m: Gan<Img>, ep: int, kwargs: map<string, seq<Img>>,
                                    draws: Occlusion.Draws, occlude: (Img, Occlusion.Square) -> Img)
    requires DrawsFit(m, kwargs, draws)
    requires SaveGan(m, ep, kwargs, draws, occlude).result.Ok?
    requires forall b: seq<Img> :: |m.g(b)| == |b| && |m.f(b)| == |b|
    requires forall b: seq<Img> :: |m.predict(Images(b))| == |b|
    ensures var r := SaveGan(m, ep, kwargs, draws, occlude).result.value;
      r.Pairs? ==> (|r.img1| >= 100 && |r.img2| >= 100 <==>
        if KindOf(Text.Lower(m.className)) == Some(ContextConditional) then |kwargs["img"]| >= 100
        else |kwargs["img6"]| >= 50 && |kwargs["img9"]| >= 50)
  {
  }

  /** `save_gan` followed by the renderer it ends in: the figure saved, or
      the exception raised. */
  method SaveGanFigure<Img>(m: Gan<Img>, ep: int, kwargs: map<string, seq<Img>>,
                            draws: Occlusion.Draws, occlude: (Img, Occlusion.Square) -> Img)
    returns (out: Result<Layout.Figure>)
    requires DrawsFit(m, kwargs, draws)
    ensures SaveGan(m, ep, kwargs, draws, occlude).result.Err? ==>
      out == Err(SaveGan(m, ep, kwargs, draws, occlude).result.error)
    ensures SaveGan(m, ep, kwargs, draws, occlude).result.Ok? ==>
      (out.Ok? <==> match SaveGan(m, ep, kwargs, draws, occlude).result.value
        case Grid(_, _, imgs, _) => |imgs| >= 100
        case Pairs(_, _, img1, img2) => |img1| >= 100 && |img2| >= 100)
    ensures SaveGan(m, ep, kwargs, draws, occlude).result.Ok? && out.Err? ==> out.error == IndexError
    ensures out.Ok? ==> out.value.path == Layout.SnapshotPath(Text.Lower(m.className), ep)
    ensures out.Ok? ==> out.value.cells == (match SaveGan(m, ep, kwargs, draws, occlude).result.value
      case Grid(_, _, _, showLabel) => Layout.GridCells(showLabel)
      case Pairs(_, _, _, _) => Layout.PairCells())
  {
    var o := SaveGan(m, ep, kwargs, draws, occlude);
    if o.result.Err? {
      return Err(o.result.error);
    }
    match o.result.value
    case Grid(name, e, imgs, showLabel) =>
      out := Layout.SaveGrid(name, e, imgs, showLabel);
    case Pairs(name, e, img1, img2) =>
      out := Layout.SaveImg2Img(name, e, img1, img2);
  }
}
