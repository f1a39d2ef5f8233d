/** Cropping detected leads out of page images: `ecg-image-generator/crop_leads.py`
    (an image and its mask, cropped together) and `codes/code-unet/crop_leads.py`
    (the image alone). The directory listing, the readable images, the files
    that exist and the detector's boxes are inputs; the detector itself and
    image decoding and encoding are not modelled. An image is a list of
    pixel rows. */
module Crop {
  import opened Base
  import opened Text
  import opened StrOrder
  import opened Jobs

  // ---------------------------------------------------------------------
  // Listing

  /** `f.lower().endswith(('.png', '.jpg', '.jpeg'))` */
  predicate IsImageName(f: string) {
    var l := Lower(f);
    EndsWith(l, ".png") || EndsWith(l, ".jpg") || EndsWith(l, ".jpeg")
  }

  function ImagesIn(listing: seq<string>): seq<string> {
    if |listing| == 0 then []
    else (if IsImageName(listing[0]) then [listing[0]] else []) + ImagesIn(listing[1..])
  }

  /** The sorted list of image names in a directory listing. */
  function ImageFiles(listing: seq<string>): seq<string> {
    Sort(ImagesIn(listing))
  }

  /** The list is sorted and holds exactly the listed names with an image
      extension, in any letter case. */
  lemma {:induction false} ImageFilesMembers(listing: seq<string>, f: string)
    ensures Sorted(ImageFiles(listing))
    ensures f in ImageFiles(listing) <==> f in listing && IsImageName(f)
  {
    SortElements(ImagesIn(listing));
    ImagesInMembers(listing, f);
  }

  lemma {:induction false} ImagesInMembers(listing: seq<string>, f: string)
    ensures f in ImagesIn(listing) <==> f in listing && IsImageName(f)
  {
    if |listing| > 0 {
      ImagesInMembers(listing[1..], f);
      assert listing == [listing[0]] + listing[1..];
    }
  }

  // ---------------------------------------------------------------------
  // Cropping

  type Image<P> = seq<seq<P>>

  /** Every row has `w` pixels and there are `h` rows. */
  predicate Rect<P>(img: Image<P>, h: nat, w: nat) {
    |img| == h && forall i :: 0 <= i < h ==> |img[i]| == w
  }

  /** `img[y1:y2, x1:x2]` with numpy's slice semantics. */
  function CropRect<P>(img: Image<P>, x1: int, y1: int, x2: int, y2: int): Image<P> {
    var rows := PySlice(img, y1, y2);
    seq(|rows|, i requires 0 <= i < |rows| => PySlice(rows[i], x1, x2))
  }

  /** Pixel `(i, k)` of a crop is pixel `(oy + i, ox + k)` of the image,
      where the offsets are the slice starts normalised against the image
      size; the crop is as large as the normalised bounds allow. */
  lemma CropPixels<P>(img: Image<P>, h: nat, w: nat, x1: int, y1: int, x2: int, y2: int)
    requires Rect(img, h, w)
    ensures var c := CropRect(img, x1, y1, x2, y2);
            var oy := PyBound(y1, h);
            var ox := PyBound(x1, w);
            && |c| == MaxInt(0, PyBound(y2, h) - oy)
            && forall i :: 0 <= i < |c| ==>
                 && |c[i]| == MaxInt(0, PyBound(x2, w) - ox)
                 && forall k :: 0 <= k < |c[i]| ==> c[i][k] == img[oy + i][ox + k]
  {
    var c := CropRect(img, x1, y1, x2, y2);
    var oy := PyBound(y1, h);
    var rows := PySlice(img, y1, y2);
    assert forall i :: 0 <= i < |rows| ==> rows[i] == img[oy + i];
  }

  /** An image and a mask of the same size cropped with the same box give
      crops of the same size whose pixels come from the same positions. */
  lemma CropPair<P>(img: Image<P>, mask: Image<P>, h: nat, w: nat, x1: int, y1: int, x2: int, y2: int)
    requires Rect(img, h, w) && Rect(mask, h, w)
    ensures var ci := CropRect(img, x1, y1, x2, y2);
            var cm := CropRect(mask, x1, y1, x2, y2);
            && |ci| == |cm|
            && forall i :: 0 <= i < |ci| ==>
                 && |ci[i]| == |cm[i]|
                 && forall k :: 0 <= k < |ci[i]| ==>
                      ci[i][k] == img[PyBound(y1, h) + i][PyBound(x1, w) + k] &&
                      cm[i][k] == mask[PyBound(y1, h) + i][PyBound(x1, w) + k]
  {
    CropPixels(img, h, w, x1, y1, x2, y2);
    CropPixels(mask, h, w, x1, y1, x2, y2);
  }

  /** One detected lead: the box corners in pixels and the class name. */
  datatype Detection = Detection(x1: real, y1: real, x2: real, y2: real, className: string)

  /** The crop of one detection: `astype(int)` truncates the corners. */
  function CropOf<P>(img: Image<P>, d: Detection): Image<P> {
    CropRect(img, Trunc(d.x1), Trunc(d.y1), Trunc(d.x2), Trunc(d.y2))
  }

  /** `f"{base_name}_{class_name}.png"` */
  function LeadFileName(file: string, className: string): string {
    SplitExt(file).0 + "_" + className + ".png"
  }

  /** A file written by a crop run. */
  datatype Written<P> = Written(path: string, pixels: Image<P>)

  /** The files and their contents a whole run writes, and the count it reports. */
  datatype CropResult<P> = CropResult(writes: seq<Written<P>>, total: nat)

  // ---------------------------------------------------------------------
  // ecg-image-generator/crop_leads.py

  datatype PairArgs = PairArgs(
    imageSource: string, imageOut: string, maskSource: string, maskOut: string,
    jobId: Option<int>, totalJobs: Option<int>, limit: Option<int>)

  /** The image crop and the mask crop of one detection, both named
      `base_class.png`, each in its own output directory. */
  function PairOf<P>(file: string, a: PairArgs, img: Image<P>, mask: Image<P>, d: Detection): seq<Written<P>> {
    var name := LeadFileName(file, d.className);
    [Written(PathJoin(a.imageOut, name), CropOf(img, d)), Written(PathJoin(a.maskOut, name), CropOf(mask, d))]
  }

  lemma {:induction false} FlattenPairsLength<T>(xs: seq<seq<T>>)
    requires forall i :: 0 <= i < |xs| ==> |xs[i]| == 2
    ensures |Flatten(xs)| == 2 * |xs|
  {
    if |xs| > 0 { FlattenPairsLength(xs[1..]); }
  }

  /** Laying pairs end to end puts pair `k` at positions `2k` and `2k + 1`. */
  lemma {:induction false} FlattenPairs<T>(xs: seq<seq<T>>, k: nat)
    requires forall i :: 0 <= i < |xs| ==> |xs[i]| == 2
    requires k < |xs|
    ensures |Flatten(xs)| == 2 * |xs| && Flatten(xs)[2 * k..2 * k + 2] == xs[k]
  {
    FlattenPairsLength(xs);
    if k > 0 {
      FlattenPairs(xs[1..], k - 1);
      var rest := Flatten(xs[1..]);
      assert Flatten(xs) == xs[0] + rest;
      assert Flatten(xs)[2 * k..2 * k + 2] == rest[2 * k - 2..2 * k];
    } else {
      assert Flatten(xs)[..2] == xs[0];
    }
  }

  /** The crops of every detection of one image, in detection order. */
  function PairWrites<P>(file: string, a: PairArgs, img: Image<P>, mask: Image<P>, dets: seq<Detection>): seq<Written<P>> {
    Flatten(seq(|dets|, i requires 0 <= i < |dets| => PairOf(file, a, img, mask, dets[i])))
  }

  lemma PairWritesLength<P>(file: string, a: PairArgs, img: Image<P>, mask: Image<P>, dets: seq<Detection>)
    ensures |PairWrites(file, a, img, mask, dets)| == 2 * |dets|
  {
    FlattenPairsLength(seq(|dets|, i requires 0 <= i < |dets| => PairOf(file, a, img, mask, dets[i])));
  }

  /** Write `2k` and write `2k + 1` are the image and mask crops of
      detection `k`: the same file name in the two output directories, and
      the same box applied to both pictures. */
  lemma PairWritesMatch<P>(file: string, a: PairArgs, img: Image<P>, mask: Image<P>, dets: seq<Detection>, k: nat)
    requires k < |dets|
    ensures var ws := PairWrites(file, a, img, mask, dets);
            |ws| == 2 * |dets| && ws[2 * k..2 * k + 2] == PairOf(file, a, img, mask, dets[k])
  {
    FlattenPairs(seq(|dets|, i requires 0 <= i < |dets| => PairOf(file, a, img, mask, dets[i])), k);
  }

  /** Whether an image is cropped: it is readable and its mask, under the
      same name in the mask directory, exists and is readable. */
  predicate PairReady<P>(file: string, a: PairArgs, images: map<string, Image<P>>, existing: set<string>) {
    && PathJoin(a.imageSource, file) in images
    && PathJoin(a.maskSource, file) in existing
    && PathJoin(a.maskSource, file) in images
  }

  /** What one listed image contributes: its crops and its detection count,
      or nothing when it is skipped. */
  function FileCrops<P>(f: string, a: PairArgs, images: map<string, Image<P>>, existing: set<string>,
                        detect: string -> seq<Detection>): (r: CropResult<P>)
    ensures |r.writes| == 2 * r.total
  {
    if PairReady(f, a, images, existing) then
      var ip := PathJoin(a.imageSource, f);
      var mask := images[PathJoin(a.maskSource, f)];
      PairWritesLength(f, a, images[ip], mask, detect(ip));
      CropResult(PairWrites(f, a, images[ip], mask, detect(ip)), |detect(ip)|)
    else CropResult([], 0)
  }

  /** The results of consecutive files combined: writes in order, counts added. */
  function Merge<P>(rs: seq<CropResult<P>>): CropResult<P> {
    if |rs| == 0 then CropResult([], 0)
    else
      var rest := Merge(rs[1..]);
      CropResult(rs[0].writes + rest.writes, rs[0].total + rest.total)
  }

  lemma {:induction false} MergeEven<P>(rs: seq<CropResult<P>>)
    requires forall i :: 0 <= i < |rs| ==> |rs[i].writes| == 2 * rs[i].total
    ensures |Merge(rs).writes| == 2 * Merge(rs).total
  {
    if |rs| > 0 { MergeEven(rs[1..]); }
  }

  lemma {:induction false} MergeAppend<P>(u: seq<CropResult<P>>, v: seq<CropResult<P>>)
    ensures Merge(u + v).writes == Merge(u).writes + Merge(v).writes
    ensures Merge(u + v).total == Merge(u).total + Merge(v).total
  {
    if |u| > 0 {
      MergeAppend(u[1..], v);
      assert (u + v)[1..] == u[1..] + v;
      assert (u + v)[0] == u[0];
    } else {
      assert u + v == v;
    }
  }

  /** What each selected file contributes, in order. */
  function PerFile<P>(files: seq<string>, a: PairArgs, images: map<string, Image<P>>, existing: set<string>,
                      detect: string -> seq<Detection>): seq<CropResult<P>> {
    MapSeq(f => FileCrops(f, a, images, existing, detect), files)
  }

  /** The loop over the selected files; every detection yields two writes. */
  function CropPairs<P>(files: seq<string>, a: PairArgs, images: map<string, Image<P>>, existing: set<string>,
                        detect: string -> seq<Detection>): (r: CropResult<P>)
    ensures |r.writes| == 2 * r.total
  {
    var rs := PerFile(files, a, images, existing, detect);
    MergeEven(rs);
    Merge(rs)
  }

  /** Running over `xs + ys` writes what `xs` writes, then what `ys` writes. */
  lemma CropPairsAppend<P>(xs: seq<string>, ys: seq<string>, a: PairArgs, images: map<string, Image<P>>,
                           existing: set<string>, detect: string -> seq<Detection>)
    ensures var r := CropPairs(xs + ys, a, images, existing, detect);
            var p := CropPairs(xs, a, images, existing, detect);
            var q := CropPairs(ys, a, images, existing, detect);
            r.writes == p.writes + q.writes && r.total == p.total + q.total
  {
    PerFileAppend(xs, ys, a, images, existing, detect);
    MergeAppend(PerFile(xs, a, images, existing, detect), PerFile(ys, a, images, existing, detect));
  }

  lemma PerFileAppend<P>(xs: seq<string>, ys: seq<string>, a: PairArgs, images: map<string, Image<P>>,
                         existing: set<string>, detect: string -> seq<Detection>)
    ensures PerFile(xs + ys, a, images, existing, detect) ==
            PerFile(xs, a, images, existing, detect) + PerFile(ys, a, images, existing, detect)
  {
    MapSeqAppend(f => FileCrops(f, a, images, existing, detect), xs, ys);
  }

  /** An image whose mask is missing or unreadable contributes nothing:
      removing it from the list changes neither the writes nor the total. */
  lemma MissingMaskSkipsImage<P>(xs: seq<string>, f: string, ys: seq<string>, a: PairArgs,
                                 images: map<string, Image<P>>, existing: set<string>, detect: string -> seq<Detection>)
    requires PathJoin(a.maskSource, f) !in existing || PathJoin(a.maskSource, f) !in images
    ensures CropPairs(xs + [f] + ys, a, images, existing, detect) == CropPairs(xs + ys, a, images, existing, detect)
  {
    CropPairsAppend(xs + [f], ys, a, images, existing, detect);
    CropPairsAppend(xs, [f], a, images, existing, detect);
    CropPairsAppend(xs, ys, a, images, existing, detect);
    assert PerFile([f], a, images, existing, detect) == [CropResult([], 0)];
    var none: CropResult<P> := CropResult([], 0);
    assert Merge([none]) == none;
  }

  /** The reported total is the number of detections over the images
      that were cropped. */
  function DetectionsIn<P>(files: seq<string>, a: PairArgs, images: map<string, Image<P>>, existing: set<string>,
                           detect: string -> seq<Detection>): nat {
    if |files| == 0 then 0
    else
      (if PairReady(files[0], a, images, existing) then |detect(PathJoin(a.imageSource, files[0]))| else 0)
      + DetectionsIn(files[1..], a, images, existing, detect)
  }

  lemma {:induction false} CropPairsTotal<P>(files: seq<string>, a: PairArgs, images: map<string, Image<P>>,
                                             existing: set<string>, detect: string -> seq<Detection>)
    ensures CropPairs(files, a, images, existing, detect).total == DetectionsIn(files, a, images, existing, detect)
  {
    if |files| > 0 {
      CropPairsTotal(files[1..], a, images, existing, detect);
      assert files == [files[0]] + files[1..];
      CropPairsAppend([files[0]], files[1..], a, images, existing, detect);
      assert PerFile([files[0]], a, images, existing, detect) == [FileCrops(files[0], a, images, existing, detect)];
      assert Merge([FileCrops(files[0], a, images, existing, detect)]).total == FileCrops(files[0], a, images, existing, detect).total;
    }
  }

  /** What a crop run does: fail to load the detector (only the paired
      script checks), stop early, or crop. */
  datatype CropOutcome<P> = ModelNotLoaded | CropStopped(reason: Stop) | Cropped(result: CropResult<P>)

  /** The selection: a limit wins over a job; without either the script
      stops. */
  function SelectPairs(files: seq<string>, a: PairArgs): Selection {
    if files == [] then Stopped(NoFiles)
    else
      var chosen: Option<seq<string>> :=
        if a.limit.Some? then Some(PySlice(files, 0, a.limit.value))
        else if a.jobId.Some? && a.totalJobs.Some? && a.totalJobs.value != 0 then
          Some(JobSlice(files, a.jobId.value, a.totalJobs.value))
        else None;
      if chosen.None? then
        if a.jobId.Some? && a.totalJobs.Some? then Stopped(ZeroJobs) else Stopped(NoMode)
      else if chosen.value == [] then Stopped(NoFiles)
      else Selected(chosen.value)
  }

  /** `main()`; `modelLoads` says whether the detector could be loaded. */
  function CropLeadsPairs<P>(modelLoads: bool, listing: seq<string>, a: PairArgs, images: map<string, Image<P>>,
                             existing: set<string>, detect: string -> seq<Detection>): CropOutcome<P> {
    if !modelLoads then ModelNotLoaded
    else
      match SelectPairs(ImageFiles(listing), a)
      case Stopped(why) => CropStopped(why)
      case Selected(files) => Cropped(CropPairs(files, a, images, existing, detect))
  }

  /** A limit overrides the job arguments; a job of `t > 0` works on its
      ceiling-division chunk of the sorted list. */
  lemma PairModes(files: seq<string>, a: PairArgs, jobId: Option<int>, totalJobs: Option<int>)
    ensures a.limit.Some? ==> SelectPairs(files, a) == SelectPairs(files, a.(jobId := jobId, totalJobs := totalJobs))
    ensures a.limit.None? && a.jobId.Some? && a.totalJobs.Some? && a.totalJobs.value > 0
              && Chunk(files, a.totalJobs.value, a.jobId.value) != [] ==>
              SelectPairs(files, a) == Selected(Chunk(files, a.totalJobs.value, a.jobId.value))
    ensures a.limit.None? && (a.jobId.None? || a.totalJobs.None?) ==>
              SelectPairs(files, a).Stopped?
  {
  }

  // ---------------------------------------------------------------------
  // codes/code-unet/crop_leads.py

  /** One crop per detection, named `base_class.png` in the output directory. */
  function LeadWrites<P>(file: string, outDir: string, img: Image<P>, dets: seq<Detection>): (ws: seq<Written<P>>)
    ensures |ws| == |dets|
  {
    if |dets| == 0 then []
    else [Written(PathJoin(outDir, LeadFileName(file, dets[0].className)), CropOf(img, dets[0]))]
         + LeadWrites(file, outDir, img, dets[1..])
  }

  /** The loop over the job's chunk; an unreadable image is skipped. */
  function CropLeads<P>(files: seq<string>, source: string, outDir: string, images: map<string, Image<P>>,
                        detect: string -> seq<Detection>): (r: CropResult<P>)
    ensures |r.writes| == r.total
  {
    if |files| == 0 then CropResult([], 0)
    else
      var rest := CropLeads(files[1..], source, outDir, images, detect);
      var ip := PathJoin(source, files[0]);
      if ip in images then
        var ws := LeadWrites(files[0], outDir, images[ip], detect(ip));
        CropResult(ws + rest.writes, |ws| + rest.total)
      else rest
  }

  /** `main()`: both job arguments are required. An empty listing stops the
      script; an empty chunk crops nothing. */
  function CropLeadsJob<P>(listing: seq<string>, source: string, outDir: string, jobId: int, totalJobs: int,
                           images: map<string, Image<P>>, detect: string -> seq<Detection>): CropOutcome<P>
  {
    var files := ImageFiles(listing);
    if files == [] then CropStopped(NoFiles)
    else if totalJobs == 0 then CropStopped(ZeroJobs)
    else
      Cropped(CropLeads(JobSlice(files, jobId, totalJobs), source, outDir, images, detect))
  }

  /** Every write names the crop `base_class.png` of one of the detections
      of a readable image among the files. */
  lemma {:induction false} CropLeadsNames<P>(files: seq<string>, source: string, outDir: string, images: map<string, Image<P>>,
                                             detect: string -> seq<Detection>, w: Written<P>)
    requires w in CropLeads(files, source, outDir, images, detect).writes
    ensures exists f, d :: f in files && PathJoin(source, f) in images && d in detect(PathJoin(source, f)) &&
              w == Written(PathJoin(outDir, LeadFileName(f, d.className)), CropOf(images[PathJoin(source, f)], d))
  {
    var f := files[0];
    var ip := PathJoin(source, f);
    var rest := CropLeads(files[1..], source, outDir, images, detect);
    if w in rest.writes {
      CropLeadsNames(files[1..], source, outDir, images, detect, w);
      var g, d :| g in files[1..] && PathJoin(source, g) in images && d in detect(PathJoin(source, g)) &&
                  w == Written(PathJoin(outDir, LeadFileName(g, d.className)), CropOf(images[PathJoin(source, g)], d));
      assert g in files;
    } else {
      assert ip in images;
      LeadWritesFrom(f, outDir, images[ip], detect(ip), w);
    }
  }

  lemma {:induction false} LeadWritesFrom<P>(file: string, outDir: string, img: Image<P>, dets: seq<Detection>, w: Written<P>)
    requires w in LeadWrites(file, outDir, img, dets)
    ensures exists d :: d in dets && w == Written(PathJoin(outDir, LeadFileName(file, d.className)), CropOf(img, d))
  {
    if w != Written(PathJoin(outDir, LeadFileName(file, dets[0].className)), CropOf(img, dets[0])) {
      LeadWritesFrom(file, outDir, img, dets[1..], w);
      var d :| d in dets[1..] && w == Written(PathJoin(outDir, LeadFileName(file, d.className)), CropOf(img, d));
      assert d in dets;
    } else {
      assert dets[0] in dets;
    }
  }
}
