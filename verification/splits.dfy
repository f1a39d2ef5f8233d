/** `split_data` of the detector's data preparation (the command-line
    version in `code-yolo/split_data.py` and the configured version in
    `codes/code-yolo/split_data.py`, which do the same thing): the `.png`
    images of a directory are shuffled and cut 70 / 15 / 15 into training,
    validation and test sets, and every image is copied with its `.txt`
    label when both exist. The shuffle is an input permutation. */
module Splits {
  import opened Base
  import opened Text

  /** `TRAIN_RATIO` and `VALID_RATIO`, taken as exact decimals. */
  const TrainRatio: real := 0.7
  const ValidRatio: real := 0.15

  /** `train_end = int(n * TRAIN_RATIO)`, `valid_end = train_end + int(n * VALID_RATIO)`. */
  function SplitEnds(n: nat): (nat, nat) {
    var trainEnd := Trunc(n as real * TrainRatio);
    var validEnd := trainEnd + Trunc(n as real * ValidRatio);
    assert 0 <= trainEnd && 0 <= validEnd;
    (trainEnd, validEnd)
  }

  /** Both cut points lie in the list and in order, and each part has the
      size its ratio gives, rounded down. */
  lemma SplitEndsBounds(n: nat)
    ensures SplitEnds(n).0 <= SplitEnds(n).1 <= n
    ensures SplitEnds(n).0 as real <= n as real * TrainRatio < SplitEnds(n).0 as real + 1.0
    ensures (SplitEnds(n).1 - SplitEnds(n).0) as real <= n as real * ValidRatio
    ensures n as real * ValidRatio < (SplitEnds(n).1 - SplitEnds(n).0) as real + 1.0
  {
    var x := n as real * TrainRatio;
    var y := n as real * ValidRatio;
    assert x + y <= n as real;
  }

  /** `(all[:train_end], all[train_end:valid_end], all[valid_end:])` */
  function Parts(all: seq<string>): (seq<string>, seq<string>, seq<string>) {
    var (t, v) := SplitEnds(|all|);
    (PySlice(all, 0, t), PySlice(all, t, v), PySlice(all, v, |all|))
  }

  /** The three parts laid end to end are the shuffled list: every image
      lands in exactly one part. */
  lemma PartsPartition(all: seq<string>)
    ensures Parts(all).0 + Parts(all).1 + Parts(all).2 == all
    ensures |Parts(all).0| == SplitEnds(|all|).0
    ensures |Parts(all).2| == |all| - SplitEnds(|all|).1
  {
    SplitEndsBounds(|all|);
    var (t, v) := SplitEnds(|all|);
    assert all == all[..t] + all[t..v] + all[v..];
  }

  /** `os.path.splitext(image_filename)[0] + '.txt'` */
  function LabelName(image: string): string {
    SplitExt(image).0 + ".txt"
  }

  /** The label of `stem.png` is `stem.txt`. */
  lemma LabelNameOf(stem: string)
    requires '/' !in stem
    requires exists k :: 0 <= k < |stem| && stem[k] != '.'
    ensures LabelName(stem + ".png") == stem + ".txt"
  {
    SplitExtOf(stem, ".png");
  }

  /** One `shutil.copyfile`: from `src` to `<out>/<part>/<folder>/<name>`. */
  datatype Copy = Copy(src: string, part: string, folder: string, name: string)

  function Destination(outDir: string, c: Copy): string {
    PathJoin(PathJoin(PathJoin(outDir, c.part), c.folder), c.name)
  }

  /** The copies for one image: the image and its label when both source
      files exist, nothing otherwise. */
  function FileCopies(part: string, f: string, imageDir: string, labelDir: string, existing: set<string>): seq<Copy> {
    var img := PathJoin(imageDir, f);
    var lbl := PathJoin(labelDir, LabelName(f));
    if img in existing && lbl in existing then
      [Copy(img, part, "images", f), Copy(lbl, part, "labels", LabelName(f))]
    else []
  }

  /** The copies of one part named `part` (`train`, `valid` or `test`), in
      file order; images without both files are skipped with a warning. */
  function PartCopies(part: string, files: seq<string>, imageDir: string, labelDir: string, existing: set<string>): seq<Copy> {
    if |files| == 0 then []
    else FileCopies(part, files[0], imageDir, labelDir, existing) + PartCopies(part, files[1..], imageDir, labelDir, existing)
  }

  /** The image copy one file can contribute, and the label copy beside it. */
  lemma FileCopiesImage(part: string, g: string, imageDir: string, labelDir: string, existing: set<string>, f: string)
    ensures Copy(PathJoin(imageDir, f), part, "images", f) in FileCopies(part, g, imageDir, labelDir, existing)
            <==> f == g && PathJoin(imageDir, f) in existing && PathJoin(labelDir, LabelName(f)) in existing
    ensures Copy(PathJoin(imageDir, f), part, "images", f) in FileCopies(part, g, imageDir, labelDir, existing)
            ==> (Copy(PathJoin(labelDir, LabelName(f)), part, "labels", LabelName(f)) in FileCopies(part, g, imageDir, labelDir, existing))
  {
    var c := Copy(PathJoin(imageDir, f), part, "images", f);
    var img := PathJoin(imageDir, g);
    var lbl := PathJoin(labelDir, LabelName(g));
    assert "images" != "labels" by { assert "images"[0] != "labels"[0]; }
    if img in existing && lbl in existing {
      PairMembers(c, Copy(img, part, "images", g), Copy(lbl, part, "labels", LabelName(g)));
    }
  }

  lemma PairMembers(c: Copy, a: Copy, b: Copy)
    ensures c in [a, b] <==> c == a || c == b
  {
  }

  /** An image of the part is copied exactly when it and its label exist,
      and then its label is copied into the same part. */
  lemma {:induction false} PartCopiesMembers(part: string, files: seq<string>, imageDir: string, labelDir: string,
                                             existing: set<string>, f: string)
    ensures Copy(PathJoin(imageDir, f), part, "images", f) in PartCopies(part, files, imageDir, labelDir, existing)
            <==> f in files && PathJoin(imageDir, f) in existing && PathJoin(labelDir, LabelName(f)) in existing
    ensures Copy(PathJoin(imageDir, f), part, "images", f) in PartCopies(part, files, imageDir, labelDir, existing)
            ==> (Copy(PathJoin(labelDir, LabelName(f)), part, "labels", LabelName(f)) in PartCopies(part, files, imageDir, labelDir, existing))
  {
    if |files| > 0 {
      PartCopiesMembers(part, files[1..], imageDir, labelDir, existing, f);
      FileCopiesImage(part, files[0], imageDir, labelDir, existing, f);
      assert f in files <==> f == files[0] || f in files[1..];
    }
  }

  /** Every copy of a part goes into that part's `images` or `labels` folder. */
  lemma {:induction false} PartCopiesStayInPart(part: string, files: seq<string>, imageDir: string, labelDir: string,
                                                existing: set<string>, c: Copy)
    requires c in PartCopies(part, files, imageDir, labelDir, existing)
    ensures c.part == part && (c.folder == "images" || c.folder == "labels")
    ensures c.folder == "images" ==> c.name in files && c.src == PathJoin(imageDir, c.name)
  {
    var rest := PartCopies(part, files[1..], imageDir, labelDir, existing);
    if c in rest {
      PartCopiesStayInPart(part, files[1..], imageDir, labelDir, existing, c);
    }
  }

  datatype SplitOutcome = NoImageDir | NoLabelDir | NoImages | Split(train: seq<Copy>, valid: seq<Copy>, test: seq<Copy>)

  /** `split_data(image_source_dir, label_source_dir, output_dir)`: `isDir`
      says which directories exist, `listing` is the image directory's
      listing and `order` the shuffle. The copies' destinations lie under
      `output_dir` (see `Destination`). */
  function SplitData(isDir: set<string>, imageDir: string, labelDir: string, listing: seq<string>,
                     order: seq<nat>, existing: set<string>): (r: SplitOutcome)
    ensures r == NoImageDir <==> imageDir !in isDir
    ensures r == NoLabelDir <==> imageDir in isDir && labelDir !in isDir
    ensures r == NoImages <==> imageDir in isDir && labelDir in isDir && forall f :: f in listing ==> !EndsWith(f, ".png")
  {
    if imageDir !in isDir then NoImageDir
    else if labelDir !in isDir then NoLabelDir
    else
      var all := EndingWith(listing, ".png");
      if |all| == 0 then NoImages
      else
        assert all[0] in all;
        var (train, valid, test) := Parts(Permute(all, order));
        Split(PartCopies("train", train, imageDir, labelDir, existing),
              PartCopies("valid", valid, imageDir, labelDir, existing),
              PartCopies("test", test, imageDir, labelDir, existing))
  }

  /** When the shuffle covers every position, an image is copied into one of
      the three parts exactly when it is a listed `.png` whose image and
      label files both exist. */
  lemma SplitDataCopied(isDir: set<string>, imageDir: string, labelDir: string, listing: seq<string>,
                        order: seq<nat>, existing: set<string>, f: string)
    requires SplitData(isDir, imageDir, labelDir, listing, order, existing).Split?
    requires forall i :: 0 <= i < |EndingWith(listing, ".png")| ==> i in order
    ensures var r := SplitData(isDir, imageDir, labelDir, listing, order, existing);
      (|| Copy(PathJoin(imageDir, f), "train", "images", f) in r.train
       || Copy(PathJoin(imageDir, f), "valid", "images", f) in r.valid
       || Copy(PathJoin(imageDir, f), "test", "images", f) in r.test)
      <==> f in listing && EndsWith(f, ".png") && PathJoin(imageDir, f) in existing && PathJoin(labelDir, LabelName(f)) in existing
  {
    var all := EndingWith(listing, ".png");
    var shuffled := Permute(all, order);
    PermuteElements(all, order, f);
    PartsPartition(shuffled);
    var (tr, va, te) := Parts(shuffled);
    assert f in shuffled <==> f in tr || f in va || f in te by {
      assert shuffled == tr + va + te;
    }
    PartCopiesMembers("train", tr, imageDir, labelDir, existing, f);
    PartCopiesMembers("valid", va, imageDir, labelDir, existing, f);
    PartCopiesMembers("test", te, imageDir, labelDir, existing, f);
  }
}
