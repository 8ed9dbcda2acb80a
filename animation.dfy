/** `cvt_gif(folders_or_gan)`: for each folder, list its files, sort them
    by modification time, keep the numbered PNG snapshots, shrink each to a
    tenth of its size and write them as an animated GIF, replacing any GIF
    already there. The file system is given as data: the listing of each
    folder (names with modification times) and the pixel size of each image
    file. */
module Animation {
  import opened Wrappers
  import Text
  import Layout

  /** One entry of `os.listdir(folder)` with its `os.path.getmtime`. */
  datatype Listed = Listed(name: string, mtime: int)

  /** One path of `fs`, with its modification time and its position in the
      listing (the order `sorted` keeps among equal times). */
  datatype Entry = Entry(path: string, mtime: int, order: nat)

  /** One resized image of the animation. */
  datatype Frame = Frame(path: string, width: nat, height: nat)

  /** The GIF written: the blank first image takes the size of the first
      frame, then come the frames, 400 ms each, looping forever. */
  datatype Gif = Gif(path: string, width: nat, height: nat, frames: seq<Frame>, durationMs: nat, loop: nat)

  /** What `cvt_gif` does to the file system. */
  datatype Effect = Removed(path: string) | Saved(gif: Gif)

  /** The argument: an explicit list of folder names, or a model, whose
      lower-cased class name is the one folder. */
  datatype GifArg = FolderList(names: seq<string>) | OfModel(className: string)

  function Folders(arg: GifArg): (folders: seq<string>)
    ensures arg.OfModel? ==> folders == [Text.Lower(arg.className)]
    ensures arg.FolderList? ==> folders == arg.names
  {
    match arg
    case FolderList(names) => names
    case OfModel(className) => [Text.Lower(className)]
  }

  /** `fs = [folder + "/" + f for f in os.listdir(folder)]`, with times and
      listing positions. */
  function Tagged(folder: string, listing: seq<Listed>): (fs: seq<Entry>)
    ensures |fs| == |listing|
    ensures forall j :: 0 <= j < |listing| ==> fs[j] == Entry(folder + "/" + listing[j].name, listing[j].mtime, j)
    ensures OrdersIncrease(fs)
  {
    seq(|listing|, j requires 0 <= j < |listing| => Entry(folder + "/" + listing[j].name, listing[j].mtime, j))
  }

  // ------------------------------------------------------------- ordering

  /** `a` comes before `b` in a stable sort by time. */
  predicate Before(a: Entry, b: Entry)
  {
    a.mtime < b.mtime || (a.mtime == b.mtime && a.order < b.order)
  }

  predicate Ordered(s: seq<Entry>)
  {
    forall i, j :: 0 <= i < j < |s| ==> Before(s[i], s[j])
  }

  predicate OrdersIncrease(s: seq<Entry>)
  {
    forall i, j :: 0 <= i < j < |s| ==> s[i].order < s[j].order
  }

  /** Insert `e` before the first entry that is not strictly older. */
  function Insert(e: Entry, s: seq<Entry>): (r: seq<Entry>)
    ensures |r| == |s| + 1
    decreases |s|
  {
    if s == [] || e.mtime <= s[0].mtime then [e] + s
    else [s[0]] + Insert(e, s[1..])
  }

  /** `sorted(fs, key=os.path.getmtime)`: an insertion sort that keeps the
      listing order among equal times. */
  function SortByMtime(s: seq<Entry>): (r: seq<Entry>)
    ensures |r| == |s|
    decreases |s|
  {
    if s == [] then [] else Insert(s[0], SortByMtime(s[1..]))
  }

  lemma {:induction false} InsertPermutes(e: Entry, s: seq<Entry>)
    ensures multiset(Insert(e, s)) == multiset(s) + multiset{e}
    decreases |s|
  {
    if s != [] && e.mtime > s[0].mtime {
      InsertPermutes(e, s[1..]);
      assert s == [s[0]] + s[1..];
    }
  }

  /** Sorting keeps every entry, each as often as it was listed. */
  lemma {:induction false} SortPermutes(s: seq<Entry>)
    ensures multiset(SortByMtime(s)) == multiset(s)
    decreases |s|
  {
    if s != [] {
      SortPermutes(s[1..]);
      InsertPermutes(s[0], SortByMtime(s[1..]));
      assert s == [s[0]] + s[1..];
    }
  }

  /** An entry that comes before every entry of an ordered sequence can be
      put in front of it. */
  lemma ConsOrdered(x: Entry, s: seq<Entry>)
    requires Ordered(s) && forall y :: y in s ==> Before(x, y)
    ensures Ordered([x] + s)
  {
    var r := [x] + s;
    forall i, j | 0 <= i < j < |r| ensures Before(r[i], r[j]) {
      assert r[j] == s[j - 1] && s[j - 1] in s;
      if i > 0 { assert r[i] == s[i - 1]; }
    }
  }

  lemma TailOrdered(s: seq<Entry>)
    requires Ordered(s) && s != []
    ensures Ordered(s[1..])
  {
    forall i, j | 0 <= i < j < |s[1..]| ensures Before(s[1..][i], s[1..][j]) {
      assert s[1..][i] == s[i + 1] && s[1..][j] == s[j + 1];
    }
  }

  lemma {:induction false} InsertOrdered(e: Entry, s: seq<Entry>)
    requires Ordered(s)
    requires forall x :: x in s ==> e.order < x.order
    ensures Ordered(Insert(e, s))
    decreases |s|
  {
    if s == [] || e.mtime <= s[0].mtime {
      if s != [] {
        HeadBeforeRest(s);
        forall y | y in s ensures Before(e, y) {
          if y != s[0] { assert y in s[1..] by { assert s == [s[0]] + s[1..]; } }
        }
      }
      ConsOrdered(e, s);
    } else {
      var tail := Insert(e, s[1..]);
      TailOrdered(s);
      forall x | x in s[1..] ensures e.order < x.order { assert x in s; }
      InsertOrdered(e, s[1..]);
      InsertPermutes(e, s[1..]);
      HeadBeforeRest(s);
      forall y | y in tail ensures Before(s[0], y) {
        assert y in multiset(tail);
        if y != e { assert y in multiset(s[1..]); }
      }
      ConsOrdered(s[0], tail);
    }
  }

  /** Sorting entries listed in increasing order gives them in increasing
      time, and in listing order among equal times. */
  lemma {:induction false} SortOrdered(s: seq<Entry>)
    requires OrdersIncrease(s)
    ensures Ordered(SortByMtime(s))
    decreases |s|
  {
    if s != [] {
      var rest := SortByMtime(s[1..]);
      SortOrdered(s[1..]);
      SortPermutes(s[1..]);
      forall x | x in rest ensures s[0].order < x.order {
        assert x in multiset(s[1..]);
        var k :| 0 <= k < |s[1..]| && s[1..][k] == x;
        assert s[k + 1] == x;
      }
      InsertOrdered(s[0], rest);
    }
  }

  // ------------------------------------------------------------- filtering

  /** The test of the loop: the path ends in ".png" and `int()` accepts its
      base name up to the first '.', so the `try` does not reach `continue`. */
  predicate IsFrame(path: string): (b: bool)
    ensures b <==> Text.EndsWith(path, ".png") && Text.ParseInt(Text.BeforeFirstDot(Text.Basename(path))).Some?
  {
    Text.EndsWith(path, ".png") && Text.IsIntLiteral(Text.BeforeFirstDot(Text.Basename(path)))
  }

  /** The entries whose path passes `keep`, in the order given. */
  function Select(s: seq<Entry>, keep: string -> bool): seq<Entry>
    decreases |s|
  {
    if s == [] then []
    else (if keep(s[0].path) then [s[0]] else []) + Select(s[1..], keep)
  }

  /** The entries the loop does not skip, in the order given. */
  function Kept(s: seq<Entry>): seq<Entry>
  {
    Select(s, IsFrame)
  }

  lemma {:induction false} SelectMembers(s: seq<Entry>, keep: string -> bool)
    ensures forall x :: x in Select(s, keep) <==> x in s && keep(x.path)
    decreases |s|
  {
    if s != [] {
      SelectMembers(s[1..], keep);
      assert s == [s[0]] + s[1..];
    }
  }

  lemma {:induction false} SelectAppend(s: seq<Entry>, x: Entry, keep: string -> bool)
    ensures Select(s + [x], keep) == Select(s, keep) + (if keep(x.path) then [x] else [])
    decreases |s|
  {
    if s == [] {
      assert [x][1..] == [];
    } else {
      var t := s + [x];
      assert t[0] == s[0] && t[1..] == s[1..] + [x];
      SelectAppend(s[1..], x, keep);
      var h := if keep(s[0].path) then [s[0]] else [];
      assert Select(t, keep) == h + Select(s[1..] + [x], keep);
      assert Select(s, keep) == h + Select(s[1..], keep);
    }
  }

  /** In an ordered sequence the first entry comes before every other. */
  lemma HeadBeforeRest(s: seq<Entry>)
    requires Ordered(s) && s != []
    ensures forall x :: x in s[1..] ==> Before(s[0], x)
  {
    forall x | x in s[1..] ensures Before(s[0], x) {
      var k :| 0 <= k < |s[1..]| && s[1..][k] == x;
      assert s[k + 1] == x;
    }
  }

  lemma {:induction false} SelectOrdered(s: seq<Entry>, keep: string -> bool)
    requires Ordered(s)
    ensures Ordered(Select(s, keep))
    decreases |s|
  {
    if s != [] {
      var tail := Select(s[1..], keep);
      TailOrdered(s);
      SelectOrdered(s[1..], keep);
      SelectMembers(s[1..], keep);
      HeadBeforeRest(s);
      if keep(s[0].path) {
        var r := [s[0]] + tail;
        forall i, j | 0 <= i < j < |r| ensures Before(r[i], r[j]) {
          if i == 0 {
            assert r[j] == tail[j - 1] && r[j] in tail;
          } else {
            assert r[i] == tail[i - 1] && r[j] == tail[j - 1];
          }
        }
      }
    }
  }

  /** The snapshot entries of a folder, in the order the loop meets them. */
  function FrameOrder(folder: string, listing: seq<Listed>): seq<Entry>
  {
    Kept(SortByMtime(Tagged(folder, listing)))
  }

  /** The frames of `cvt_gif` are exactly the listed files that pass the
      snapshot test, each once, in increasing modification time and, among
      equal times, in listing order. */
  lemma FrameSelection(folder: string, listing: seq<Listed>)
    ensures forall e :: e in FrameOrder(folder, listing) <==> e in Tagged(folder, listing) && IsFrame(e.path)
    ensures forall j :: 0 <= j < |listing| ==>
      (Tagged(folder, listing)[j] in FrameOrder(folder, listing) <==> IsFrame(folder + "/" + listing[j].name))
    ensures Ordered(FrameOrder(folder, listing))
  {
    var fs := Tagged(folder, listing);
    assert OrdersIncrease(fs);
    SortOrdered(fs);
    SelectOrdered(SortByMtime(fs), IsFrame);
    SelectMembers(SortByMtime(fs), IsFrame);
    SortPermutes(fs);
    forall e ensures e in SortByMtime(fs) <==> e in fs {
      assert e in multiset(SortByMtime(fs)) <==> e in multiset(fs);
    }
  }

  // --------------------------------------------------------------- resizing

  /** `img.resize((img.width // 10, img.height // 10))`, with the size the
      file decodes to given by `dims`. */
  function Shrink(path: string, dims: string -> (nat, nat)): (f: Frame)
    ensures f.path == path && f.width * 10 <= dims(path).0 < f.width * 10 + 10
    ensures f.height * 10 <= dims(path).1 < f.height * 10 + 10
  {
    Frame(path, dims(path).0 / 10, dims(path).1 / 10)
  }

  function Thumbnails(s: seq<Entry>, dims: string -> (nat, nat)): (frames: seq<Frame>)
    ensures |frames| == |s|
  {
    seq(|s|, i requires 0 <= i < |s| => Shrink(s[i].path, dims))
  }

  /** The loop of `cvt_gif` over the sorted paths: skip what is not a
      snapshot, append the shrunken image of what is. */
  method CollectFrames(sorted: seq<Entry>, dims: string -> (nat, nat)) returns (imgs: seq<Frame>)
    ensures imgs == Thumbnails(Kept(sorted), dims)
  {
    imgs := [];
    for k := 0 to |sorted|
      invariant imgs == Thumbnails(Kept(sorted[..k]), dims)
    {
      var f := sorted[k];
      assert sorted[..k + 1] == sorted[..k] + [f];
      SelectAppend(sorted[..k], f, IsFrame);
      if !Text.EndsWith(f.path, ".png") {
        continue;
      }
      if !Text.IsIntLiteral(Text.BeforeFirstDot(Text.Basename(f.path))) {
        continue;
      }
      imgs := imgs + [Shrink(f.path, dims)];
    }
    assert sorted[..|sorted|] == sorted;
  }

  // ---------------------------------------------------------------- folders

  /** `"{}/generating.gif".format(folder)`. */
  function GifPath(folder: string): string
  {
    folder + "/generating.gif"
  }

  /** The GIF lies directly in its folder and is called `generating.gif`, so
      the GIFs of two different folders are different files. */
  lemma GifPathInFolder(folder: string, other: string)
    ensures Text.Basename(GifPath(folder)) == "generating.gif"
    ensures GifPath(folder) == GifPath(other) <==> folder == other
  {
    Text.BasenameAfterSlash(folder, "generating.gif");
    assert GifPath(folder) == folder + "/" + "generating.gif";
    if GifPath(folder) == GifPath(other) {
      assert folder == GifPath(folder)[..|GifPath(folder)| - 15];
    }
  }

  /** Some entry of `listing` is called `name`. */
  predicate Lists(listing: seq<Listed>, name: string)
    decreases |listing|
  {
    listing != [] && (listing[0].name == name || Lists(listing[1..], name))
  }

  lemma {:induction false} ListsMeans(listing: seq<Listed>, name: string)
    ensures Lists(listing, name) <==> exists j :: 0 <= j < |listing| && listing[j].name == name
    decreases |listing|
  {
    if listing != [] {
      ListsMeans(listing[1..], name);
      if Lists(listing[1..], name) {
        var j :| 0 <= j < |listing[1..]| && listing[1..][j].name == name;
        assert listing[j + 1].name == name;
      }
      if j :| 0 < j < |listing| && listing[j].name == name {
        assert listing[1..][j - 1].name == name;
      }
    }
  }

  /** `os.path.exists(path)` for the GIF of a folder: it was listed there, or
      this call has already written it. */
  predicate GifExists(folder: string, listing: seq<Listed>, written: set<string>)
  {
    GifPath(folder) in written || Lists(listing, "generating.gif")
  }

  /** The GIF of a folder exists exactly when this call wrote it or the
      folder's listing has an entry called `generating.gif`. */
  lemma GifExistsMeans(folder: string, listing: seq<Listed>, written: set<string>)
    ensures GifExists(folder, listing, written) <==>
      GifPath(folder) in written || exists j :: 0 <= j < |listing| && listing[j].name == "generating.gif"
  {
    ListsMeans(listing, "generating.gif");
  }

  /** The shrunken snapshots of a folder, in the order they are appended. */
  function FolderFrames(folder: string, listing: seq<Listed>, dims: string -> (nat, nat)): seq<Frame>
  {
    Thumbnails(FrameOrder(folder, listing), dims)
  }

  /** `g` is the GIF `cvt_gif` writes for `folder`: at
      `<folder>/generating.gif`, holding the folder's shrunken snapshots in
      order, sized like the first of them, 400 ms a frame, looping forever. */
  predicate IsFolderGif(g: Gif, folder: string, listing: seq<Listed>, dims: string -> (nat, nat))
  {
    var frames := FolderFrames(folder, listing, dims);
    frames != [] && g == Gif(GifPath(folder), frames[0].width, frames[0].height, frames, 400, 0)
  }

  /** The body of the outer loop of `cvt_gif` for one existing folder: remove
      an existing GIF, then write the new one, or raise IndexError at
      `imgs[0]` when the folder holds no snapshot (after the removal). */
  function FolderStep(folder: string, listing: seq<Listed>, dims: string -> (nat, nat),
                      written: set<string>): (step: (seq<Effect>, Option<Error>))
    ensures step.1 == None <==> FrameOrder(folder, listing) != []
    ensures step.1 != None ==> step.1 == Some(IndexError)
    ensures |step.0| == (if GifExists(folder, listing, written) then 1 else 0) + (if step.1 == None then 1 else 0)
    ensures GifExists(folder, listing, written) ==> step.0[0] == Removed(GifPath(folder))
    ensures step.1 == None ==> step.0[|step.0| - 1].Saved? && IsFolderGif(step.0[|step.0| - 1].gif, folder, listing, dims)
  {
    var imgs := FolderFrames(folder, listing, dims);
    var path := GifPath(folder);
    var removal := if GifExists(folder, listing, written) then [Removed(path)] else [];
    if imgs == [] then (removal, Some(IndexError))
    else (removal + [Saved(Gif(path, imgs[0].width, imgs[0].height, imgs, 400, 0))], None)
  }

  /** The effects of `cvt_gif` on the folders `names`, and the exception that
      ends it, if any. A folder that does not exist raises FileNotFoundError;
      an exception stops the remaining folders. */
  function Run(names: seq<string>, listings: map<string, seq<Listed>>, dims: string -> (nat, nat),
               written: set<string>): (run: (seq<Effect>, Option<Error>))
    ensures run.1 != None ==>
      run.1 == Some(IndexError) ||
      exists name :: name in names && "visual/" + name !in listings && run.1 == Some(FileNotFoundError("visual/" + name))
    decreases |names|
  {
    if names == [] then ([], None)
    else
      var folder := "visual/" + names[0];
      if folder !in listings then ([], Some(FileNotFoundError(folder)))
      else
        var step := FolderStep(folder, listings[folder], dims, written);
        if step.1.Some? then step
        else
          var rest := Run(names[1..], listings, dims, written + {GifPath(folder)});
          (step.0 + rest.0, rest.1)
  }

  /** One pass of the outer loop of `cvt_gif`, on an existing folder. */
  method ConvertFolder(folder: string, listing: seq<Listed>, dims: string -> (nat, nat), written: set<string>)
    returns (effects: seq<Effect>, err: Option<Error>)
    ensures (effects, err) == FolderStep(folder, listing, dims, written)
  {
    var fs := Tagged(folder, listing);
    var imgs := CollectFrames(SortByMtime(fs), dims);
    assert imgs == FolderFrames(folder, listing, dims);
    var path := GifPath(folder);
    effects, err := [], None;
    if GifExists(folder, listing, written) {
      effects := [Removed(path)];
    }
    if |imgs| == 0 {
      err := Some(IndexError);
      return;
    }
    var gif := Gif(path, imgs[0].width, imgs[0].height, imgs, 400, 0);
    effects := effects + [Saved(gif)];
  }

  /** One pass of the outer loop of `cvt_gif`, on folder `k` of `names`,
      appending its effects to `effects`: either it raises, and `Run` from
      folder `k` on ends there, or it adds the folder's GIF to `written` and
      `Run` goes on with the next folder. */
  method ConvertNext(names: seq<string>, k: nat, listings: map<string, seq<Listed>>, dims: string -> (nat, nat),
                     written: set<string>, effects: seq<Effect>, ghost total: (seq<Effect>, Option<Error>))
    returns (effects': seq<Effect>, err: Option<Error>, written': set<string>)
    requires k < |names|
    requires total == (effects + Run(names[k..], listings, dims, written).0, Run(names[k..], listings, dims, written).1)
    ensures err.Some? ==> total == (effects', err)
    ensures err.None? ==> written' == written + {GifPath("visual/" + names[k])}
    ensures err.None? ==>
      total == (effects' + Run(names[k + 1..], listings, dims, written').0, Run(names[k + 1..], listings, dims, written').1)
  {
    assert names[k..][1..] == names[k + 1..];
    var folder := "visual/" + names[k];
    written' := written;
    if folder !in listings {
      effects', err := effects, Some(FileNotFoundError(folder));
      assert effects + [] == effects;
      return;
    }
    var stepEffects;
    stepEffects, err := ConvertFolder(folder, listings[folder], dims, written);
    effects' := effects + stepEffects;
    if err.None? {
      written' := written + {GifPath(folder)};
      ghost var rest := Run(names[k + 1..], listings, dims, written');
      assert effects + (stepEffects + rest.0) == effects' + rest.0;
    }
  }

  /** `cvt_gif(folders_or_gan)`. */
  method CvtGif(arg: GifArg, listings: map<string, seq<Listed>>, dims: string -> (nat, nat))
    returns (effects: seq<Effect>, err: Option<Error>)
    ensures (effects, err) == Run(Folders(arg), listings, dims, {})
  {
    var names := Folders(arg);
    var written: set<string> := {};
    effects, err := [], None;
    ghost var total := Run(names, listings, dims, {});
    assert names[0..] == names;
    assert effects + total.0 == total.0;
    for k := 0 to |names|
      invariant total == (effects + Run(names[k..], listings, dims, written).0, Run(names[k..], listings, dims, written).1)
      invariant err == None
    {
      effects, err, written := ConvertNext(names, k, listings, dims, written, effects, total);
      if err.Some? {
        return;
      }
    }
    assert names[|names|..] == [];
    assert effects + [] == effects;
  }

  /** `cvt_gif` finishes without an exception exactly when every folder
      exists and holds at least one snapshot. */
  lemma {:induction false} RunSucceeds(names: seq<string>, listings: map<string, seq<Listed>>,
                                       dims: string -> (nat, nat), written: set<string>)
    ensures Run(names, listings, dims, written).1 == None <==>
      forall name :: name in names ==>
        "visual/" + name in listings && FrameOrder("visual/" + name, listings["visual/" + name]) != []
    decreases |names|
  {
    if names != [] {
      var path := GifPath("visual/" + names[0]);
      RunSucceeds(names[1..], listings, dims, written + {path});
      assert forall name :: name in names <==> name == names[0] || name in names[1..] by {
        assert names == [names[0]] + names[1..];
      }
    }
  }

  /** Every GIF `cvt_gif` writes is the GIF of one of its folders, holding
      that folder's snapshots in time order. */
  lemma {:induction false} RunSavesFolderGifs(names: seq<string>, listings: map<string, seq<Listed>>,
                                              dims: string -> (nat, nat), written: set<string>)
    ensures forall e :: e in Run(names, listings, dims, written).0 && e.Saved? ==>
      exists name :: name in names && "visual/" + name in listings &&
        IsFolderGif(e.gif, "visual/" + name, listings["visual/" + name], dims)
    decreases |names|
  {
    if names != [] {
      var folder := "visual/" + names[0];
      if folder in listings {
        var path := GifPath(folder);
        RunSavesFolderGifs(names[1..], listings, dims, written + {path});
        forall name | name in names[1..] ensures name in names { }
      }
    }
  }

  /** Every GIF `cvt_gif` removes is the GIF of one of its folders. */
  lemma {:induction false} RunRemovesOnlyFolderGifs(names: seq<string>, listings: map<string, seq<Listed>>,
                                                    dims: string -> (nat, nat), written: set<string>)
    ensures forall e :: e in Run(names, listings, dims, written).0 && e.Removed? ==>
      exists name :: name in names && "visual/" + name in listings && e.path == GifPath("visual/" + name)
    decreases |names|
  {
    if names != [] {
      var folder := "visual/" + names[0];
      if folder in listings {
        RunRemovesOnlyFolderGifs(names[1..], listings, dims, written + {GifPath(folder)});
        forall name | name in names[1..] ensures name in names { }
      }
    }
  }

  /** Each removal in `effects` is followed at once by the writing of a GIF
      at the same path, or is the last effect before an IndexError. */
  predicate RemovalsReplaced(effects: seq<Effect>, err: Option<Error>)
  {
    forall k {:trigger effects[k]} :: 0 <= k < |effects| && effects[k].Removed? ==>
      if k + 1 < |effects| then effects[k + 1].Saved? && effects[k + 1].gif.path == effects[k].path
      else err == Some(IndexError)
  }

  lemma ReplacedConcat(a: seq<Effect>, b: seq<Effect>, err: Option<Error>)
    requires RemovalsReplaced(a, None) && RemovalsReplaced(b, err)
    ensures RemovalsReplaced(a + b, err)
  {
    forall k | 0 <= k < |a + b| && (a + b)[k].Removed?
      ensures var s := a + b;
        if k + 1 < |s| then s[k + 1].Saved? && s[k + 1].gif.path == s[k].path else err == Some(IndexError)
    {
      if k >= |a| {
        assert (a + b)[k] == b[k - |a|];
        if k + 1 < |a + b| { assert (a + b)[k + 1] == b[k + 1 - |a|]; }
      } else {
        assert (a + b)[k] == a[k] && a[k].Removed?;
        assert if k + 1 < |a| then a[k + 1].Saved? && a[k + 1].gif.path == a[k].path
          else None == Some(IndexError);
        assert (a + b)[k + 1] == a[k + 1];
      }
    }
  }

  /** `cvt_gif` removes a GIF only to write the folder's new GIF in its
      place straight after, unless the folder turns out to hold no snapshot,
      in which case the removal is the last thing it does before raising
      IndexError. */
  lemma {:induction false} RunReplacesRemovedGifs(names: seq<string>, listings: map<string, seq<Listed>>,
                                                  dims: string -> (nat, nat), written: set<string>)
    ensures RemovalsReplaced(Run(names, listings, dims, written).0, Run(names, listings, dims, written).1)
    decreases |names|
  {
    if names != [] {
      var folder := "visual/" + names[0];
      if folder in listings {
        var step := FolderStep(folder, listings[folder], dims, written);
        assert RemovalsReplaced(step.0, step.1);
        if step.1.None? {
          RunReplacesRemovedGifs(names[1..], listings, dims, written + {GifPath(folder)});
          var rest := Run(names[1..], listings, dims, written + {GifPath(folder)});
          ReplacedConcat(step.0, rest.0, rest.1);
        }
      }
    }
  }

  /** The run gets as far as folder `i`: every folder before it exists and
      holds a snapshot, so none of them raised. */
  predicate Reaches(names: seq<string>, i: nat, listings: map<string, seq<Listed>>)
    requires i <= |names|
  {
    forall j :: 0 <= j < i ==>
      "visual/" + names[j] in listings && FrameOrder("visual/" + names[j], listings["visual/" + names[j]]) != []
  }

  /** The GIF paths of the folders `names`, which the run writes one by one. */
  function EarlierGifs(names: seq<string>): set<string>
    decreases |names|
  {
    if names == [] then {} else {GifPath("visual/" + names[0])} + EarlierGifs(names[1..])
  }

  /** What the run does for an existing folder reached when the GIFs in
      `before` exist besides the listed files: with snapshots, it writes the
      folder's GIF, right after removing the old one if there was one;
      without, it raises IndexError, and the removal of the old GIF, if there
      was one, is its last effect. */
  predicate FolderDone(run: (seq<Effect>, Option<Error>), folder: string, listing: seq<Listed>,
                       dims: string -> (nat, nat), before: set<string>)
  {
    (FrameOrder(folder, listing) != [] ==>
      exists k :: 0 <= k < |run.0| && run.0[k].Saved? && IsFolderGif(run.0[k].gif, folder, listing, dims) &&
        (GifExists(folder, listing, before) ==> 0 < k && run.0[k - 1] == Removed(GifPath(folder)))) &&
    (FrameOrder(folder, listing) == [] ==>
      run.1 == Some(IndexError) &&
      (GifExists(folder, listing, before) ==> run.0 != [] && run.0[|run.0| - 1] == Removed(GifPath(folder))))
  }

  lemma DoneShift(first: seq<Effect>, rest: (seq<Effect>, Option<Error>), folder: string, listing: seq<Listed>,
                  dims: string -> (nat, nat), before: set<string>)
    requires FolderDone(rest, folder, listing, dims, before)
    ensures FolderDone((first + rest.0, rest.1), folder, listing, dims, before)
  {
    var run := (first + rest.0, rest.1);
    if FrameOrder(folder, listing) != [] {
      var k :| 0 <= k < |rest.0| && rest.0[k].Saved? && IsFolderGif(rest.0[k].gif, folder, listing, dims) &&
        (GifExists(folder, listing, before) ==> 0 < k && rest.0[k - 1] == Removed(GifPath(folder)));
      assert run.0[k + |first|] == rest.0[k];
      if GifExists(folder, listing, before) {
        assert run.0[k - 1 + |first|] == rest.0[k - 1];
      }
    } else if GifExists(folder, listing, before) {
      assert run.0[|run.0| - 1] == rest.0[|rest.0| - 1];
    }
  }

  /** The folder `names[0]`, when it exists, is done by its own step. */
  lemma FirstFolderDone(names: seq<string>, listings: map<string, seq<Listed>>, dims: string -> (nat, nat),
                        written: set<string>)
    requires names != [] && "visual/" + names[0] in listings
    ensures FolderDone(Run(names, listings, dims, written), "visual/" + names[0],
                       listings["visual/" + names[0]], dims, written)
  {
    var folder := "visual/" + names[0];
    var listing := listings[folder];
    var step := FolderStep(folder, listing, dims, written);
    var run := Run(names, listings, dims, written);
    if step.1 == None {
      var rest := Run(names[1..], listings, dims, written + {GifPath(folder)});
      assert run.0 == step.0 + rest.0;
      var k := |step.0| - 1;
      assert run.0[k] == step.0[k];
      if GifExists(folder, listing, written) {
        assert run.0[k - 1] == step.0[0];
      }
    } else {
      assert run == step;
    }
  }

  /** `cvt_gif` replaces the GIF of every folder it reaches: a folder with
      snapshots gets its new GIF, right after the removal of the GIF that
      existed (listed there, or written earlier in the same call); a folder
      without snapshots raises IndexError right after that removal. */
  lemma {:induction false} RunReplacesFolderGifs(names: seq<string>, listings: map<string, seq<Listed>>,
                                                 dims: string -> (nat, nat), written: set<string>)
    ensures forall i :: 0 <= i < |names| && Reaches(names, i, listings) && "visual/" + names[i] in listings ==>
      FolderDone(Run(names, listings, dims, written), "visual/" + names[i], listings["visual/" + names[i]], dims,
                 written + EarlierGifs(names[..i]))
    decreases |names|
  {
    if names != [] {
      var folder := "visual/" + names[0];
      var written' := written + {GifPath(folder)};
      RunReplacesFolderGifs(names[1..], listings, dims, written');
      forall i | 0 <= i < |names| && Reaches(names, i, listings) && "visual/" + names[i] in listings
        ensures FolderDone(Run(names, listings, dims, written), "visual/" + names[i],
                           listings["visual/" + names[i]], dims, written + EarlierGifs(names[..i]))
      {
        if i == 0 {
          assert names[..0] == [];
          assert written + EarlierGifs(names[..0]) == written;
          FirstFolderDone(names, listings, dims, written);
        } else {
          var step := FolderStep(folder, listings[folder], dims, written);
          var rest := Run(names[1..], listings, dims, written');
          assert step.1 == None;
          assert Run(names, listings, dims, written) == (step.0 + rest.0, rest.1);
          assert Reaches(names[1..], i - 1, listings) by {
            forall j | 0 <= j < i - 1 ensures names[1..][j] == names[j + 1] { }
          }
          assert names[1..][i - 1] == names[i];
          assert names[..i][1..] == names[1..][..i - 1];
          assert EarlierGifs(names[..i]) == {GifPath(folder)} + EarlierGifs(names[1..][..i - 1]);
          assert written' + EarlierGifs(names[1..][..i - 1]) == written + EarlierGifs(names[..i]);
          DoneShift(step.0, rest, "visual/" + names[i], listings["visual/" + names[i]], dims,
                    written + EarlierGifs(names[..i]));
        }
      }
    }
  }

  /** When `cvt_gif` raises nothing, every one of its folders gets its GIF. */
  lemma RunSavesEveryFolder(names: seq<string>, listings: map<string, seq<Listed>>,
                            dims: string -> (nat, nat), written: set<string>)
    requires Run(names, listings, dims, written).1 == None
    ensures forall name :: name in names ==>
      "visual/" + name in listings &&
      exists g :: Saved(g) in Run(names, listings, dims, written).0 &&
        IsFolderGif(g, "visual/" + name, listings["visual/" + name], dims)
  {
    var run := Run(names, listings, dims, written);
    RunSucceeds(names, listings, dims, written);
    RunReplacesFolderGifs(names, listings, dims, written);
    forall name | name in names
      ensures "visual/" + name in listings &&
        exists g :: Saved(g) in run.0 && IsFolderGif(g, "visual/" + name, listings["visual/" + name], dims)
    {
      var i :| 0 <= i < |names| && names[i] == name;
      assert Reaches(names, i, listings) by {
        forall j | 0 <= j < i ensures names[j] in names { }
      }
      var folder := "visual/" + name;
      var k :| 0 <= k < |run.0| && run.0[k].Saved? && IsFolderGif(run.0[k].gif, folder, listings[folder], dims) &&
        (GifExists(folder, listings[folder], written + EarlierGifs(names[..i])) ==>
          0 < k && run.0[k - 1] == Removed(GifPath(folder)));
      assert Saved(run.0[k].gif) == run.0[k];
    }
  }

  /** The GIF is never mistaken for a snapshot, so replacing it does not
      change the frames of a later run. */
  lemma GifIsNotAFrame(folder: string)
    ensures !IsFrame(GifPath(folder))
  {
    var p := GifPath(folder);
    assert p[|p| - 4..] == ".gif";
  }

  /** The snapshot of epoch `ep` in any folder passes the snapshot test and
      its base name reads back as `ep`. */
  lemma SnapshotNameIsFrame(folder: string, ep: int)
    ensures IsFrame(folder + "/" + Layout.SnapshotName(ep))
    ensures Text.ParseInt(Text.BeforeFirstDot(Text.Basename(folder + "/" + Layout.SnapshotName(ep)))) == Some(ep)
  {
    var stem := Text.FormatInt(ep);
    var name := Layout.SnapshotName(ep);
    var p := folder + "/" + name;
    assert name == stem + "." + "png";
    Text.BasenameAfterSlash(folder, name);
    Text.BeforeDotOfStem(stem, "png");
    Text.ParseFormat(ep);
    assert p == (folder + "/" + stem) + ".png";
    assert p[|p| - 4..] == ".png";
  }

  /** Every snapshot `save_gan` writes for a model is a frame of `cvt_gif`
      for that model: it lies in the folder `cvt_gif` lists, passes the
      snapshot test, and its base name reads back as the epoch. */
  lemma SnapshotIsFrame(className: string, ep: int)
    ensures var folder := "visual/" + Folders(OfModel(className))[0];
      Layout.SnapshotPath(Text.Lower(className), ep) == folder + "/" + Layout.SnapshotName(ep) &&
      IsFrame(folder + "/" + Layout.SnapshotName(ep)) &&
      Text.ParseInt(Text.BeforeFirstDot(Text.Basename(folder + "/" + Layout.SnapshotName(ep)))) == Some(ep)
  {
    SnapshotNameIsFrame("visual/" + Text.Lower(className), ep);
  }
}
