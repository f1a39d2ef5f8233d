/** Preparing the cropped leads for nnU-Net: `code-unet/prepare_data_parallel.py`
    (one shard of a master id list, per model type) and `code-unet/prepare_data.py`
    (the whole data set). Image files are grouped by ECG id, the ids are
    split into a training prefix and a test suffix, and every image whose
    mask exists is converted, with the mask binarised. Directory listings,
    the files that exist, the readable images and the shuffled order are
    inputs; NIfTI writing is not modelled. */
module Datasets {
  import opened Base
  import opened Text
  import opened StrOrder

  // ---------------------------------------------------------------------
  // Configuration

  /** One data source: its key and its image and mask directories. */
  datatype Source = Source(key: string, images: string, masks: string)

  datatype Config = Config(sources: seq<Source>, datasetId: nat, nameSuffix: string, testSetSuffix: string)

  /** `f"Dataset{id:03d}_{suffix}"` */
  function DatasetName(id: nat, suffix: string): string {
    "Dataset" + ZeroPad3(id) + "_" + suffix
  }

  /** Different ids with the same suffix give different names. */
  lemma DatasetNameInjective(a: nat, b: nat, suffix: string)
    requires DatasetName(a, suffix) == DatasetName(b, suffix)
    ensures a == b
  {
    var pa := ZeroPad3(a);
    var pb := ZeroPad3(b);
    assert |pa| == |pb|;
    var na := DatasetName(a, suffix);
    assert na[7..7 + |pa|] == pa;
    assert DatasetName(b, suffix)[7..7 + |pb|] == pb;
  }

  function SourcesUnder(root: string): seq<Source> {
    [Source("clean", root + "/Cropped_Images_Clean", root + "/Cropped_Masks_Clean"),
     Source("scanner", root + "/Cropped_Images_Scanner", root + "/Cropped_Masks_Scanner"),
     Source("physical", root + "/Cropped_Images_Physical", root + "/Cropped_Masks_Physical"),
     Source("chaos", root + "/Cropped_Images_Chaos", root + "/Cropped_Masks_Chaos")]
  }

  /** `get_config(model_type)`; `None` is the `ValueError` for any other type. */
  function GetConfig(modelType: string): (r: Option<Config>)
    ensures r.Some? <==> modelType == "12L" || modelType == "LL"
  {
    if modelType == "12L" then
      Some(Config(SourcesUnder("/mnt/parscratch/users/lip24dg/data/final_dataset_augmented_12L"), 7, "_12L", "_12L"))
    else if modelType == "LL" then
      Some(Config(SourcesUnder("/mnt/parscratch/users/lip24dg/data/final_dataset_augmented"), 8, "_LL", "_LL"))
    else None
  }

  /** The two data set names: the suffix already starts with `_`, so the
      name holds a double underscore. */
  lemma ConfigNames()
    ensures DatasetName(GetConfig("12L").value.datasetId, GetConfig("12L").value.nameSuffix) == "Dataset007__12L"
    ensures DatasetName(GetConfig("LL").value.datasetId, GetConfig("LL").value.nameSuffix) == "Dataset008__LL"
    ensures GetConfig("12L").value.datasetId != GetConfig("LL").value.datasetId
  {
    assert NatToString(7) == "7";
    assert NatToString(8) == "8";
    assert ZeroPad3(7) == "007";
    assert ZeroPad3(8) == "008";
  }

  /** The data set name of `prepare_data.py`: `Dataset003_ecg_robust`. */
  const TargetDatasetName: string := DatasetName(3, "ecg_robust")

  // ---------------------------------------------------------------------
  // File names

  /** `'_'.join(fname.split('_')[:-1])`: the name without its last
      `_`-separated component. */
  function EcgId(fname: string): string {
    var parts := Split(fname, '_');
    Join(parts[..|parts| - 1], '_')
  }

  /** A lead image named `id_lead.png`, whose last component has no `_`,
      belongs to ECG `id`. */
  lemma EcgIdOf(id: string, lead: string)
    requires '_' !in lead
    ensures EcgId(id + "_" + lead) == id
  {
    var parts := Split(id, '_');
    JoinSplit(id, '_');
    JoinAppend(parts, lead, '_');
    assert Join(parts + [lead], '_') == id + "_" + lead;
    forall k | 0 <= k < |parts + [lead]| ensures '_' !in (parts + [lead])[k] {
      if k < |parts| { assert (parts + [lead])[k] == parts[k]; }
    }
    SplitJoin(parts + [lead], '_');
    assert (parts + [lead])[..|parts|] == parts;
  }

  /** A name without `_` has the empty id. */
  lemma EcgIdWithoutSeparator(fname: string)
    requires '_' !in fname
    ensures EcgId(fname) == ""
  {
  }

  /** `img_file.replace(".png", "_0000.nii.gz")` */
  function ImageOutName(f: string): string { ReplaceAll(f, ".png", "_0000.nii.gz") }

  /** `img_file.replace(".png", ".nii.gz")` */
  function LabelOutName(f: string): string { ReplaceAll(f, ".png", ".nii.gz") }

  /** For a dot-free stem, `stem.png` becomes `stem_0000.nii.gz` (the image
      channel) and `stem.nii.gz` (its label): the names nnU-Net pairs. */
  lemma OutNamesOf(stem: string)
    requires '.' !in stem
    ensures ImageOutName(stem + ".png") == stem + "_0000.nii.gz"
    ensures LabelOutName(stem + ".png") == stem + ".nii.gz"
  {
    ReplaceSuffix(stem, ".png", "_0000.nii.gz");
    ReplaceSuffix(stem, ".png", ".nii.gz");
  }

  // ---------------------------------------------------------------------
  // Gathering the images by ECG id

  /** One listed image: its source and file name. */
  datatype Entry = Entry(source: Source, fname: string)

  /** The entries of every source, in source order and sorted within a
      source. `listings` maps each existing directory to its listing; a
      missing image directory is skipped when `skipMissing`, and is a
      `FileNotFoundError` (`None`) otherwise. */
  function Stream(sources: seq<Source>, listings: map<string, seq<string>>, skipMissing: bool): Option<seq<Entry>> {
    if |sources| == 0 then Some([])
    else
      var s := sources[0];
      var rest := Stream(sources[1..], listings, skipMissing);
      if s.images !in listings then (if skipMissing then rest else None)
      else if rest.None? then None
      else
        var names := Sort(EndingWith(listings[s.images], ".png"));
        Some(MapSeq((f: string) => Entry(s, f), names) + rest.value)
  }

  /** `ecg_to_images_map`: for each ECG id, its entries in stream order. */
  function Gather(stream: seq<Entry>): map<string, seq<Entry>> {
    if |stream| == 0 then map[]
    else
      var m := Gather(stream[..|stream| - 1]);
      var e := stream[|stream| - 1];
      var id := EcgId(e.fname);
      m[id := (if id in m then m[id] else []) + [e]]
  }

  /** The entries of the stream that belong to `id`, in order. */
  function EntriesOf(stream: seq<Entry>, id: string): seq<Entry> {
    if |stream| == 0 then []
    else EntriesOf(stream[..|stream| - 1], id) + (if EcgId(stream[|stream| - 1].fname) == id then [stream[|stream| - 1]] else [])
  }

  /** `ecg_to_images_map.get(ecg_id, {})`, flattened over its sources. */
  function Lookup(m: map<string, seq<Entry>>, id: string): seq<Entry> {
    if id in m then m[id] else []
  }

  /** The map has a key for exactly the ids in the stream. */
  lemma {:induction false} GatherKeys(stream: seq<Entry>, id: string)
    ensures id in Gather(stream) <==> exists i :: 0 <= i < |stream| && EcgId(stream[i].fname) == id
  {
    if |stream| > 0 {
      var n := |stream| - 1;
      var init := stream[..n];
      GatherKeys(init, id);
      if exists i :: 0 <= i < n && EcgId(init[i].fname) == id {
        var i :| 0 <= i < n && EcgId(init[i].fname) == id;
        assert stream[i] == init[i];
      }
      if exists i :: 0 <= i < |stream| && EcgId(stream[i].fname) == id {
        var i :| 0 <= i < |stream| && EcgId(stream[i].fname) == id;
        if i < n { assert init[i] == stream[i]; }
      }
    }
  }

  /** Each id's list holds exactly its entries, in stream order (so the
      sources come in source order and the files sorted within each). */
  lemma {:induction false} GatherValues(stream: seq<Entry>, id: string)
    ensures Lookup(Gather(stream), id) == EntriesOf(stream, id)
  {
    if |stream| > 0 {
      GatherValues(stream[..|stream| - 1], id);
    }
  }

  // ---------------------------------------------------------------------
  // Shards and the train/test split

  /** The shard of the id list this job prepares; `None` is the
      `ZeroDivisionError` of `num_shards == 0`. */
  function Shard(ids: seq<string>, numShards: int, shardId: int): (r: Option<seq<string>>)
    ensures r.None? <==> numShards == 0
  {
    if numShards == 0 then None
    else
      var size := Ceil(|ids| as real / numShards as real);
      var start := shardId * size;
      Some(PySlice(ids, start, MinInt(start + size, |ids|)))
  }

  /** With `t > 0` shards, shard `s` is the ceiling-division chunk `s` of
      the list, and the shards `0 .. t-1` laid end to end are the list. */
  lemma ShardsPartition(ids: seq<string>, t: int, s: int)
    requires t > 0
    ensures Shard(ids, t, s) == Some(Chunk(ids, t, s))
    ensures ChunksUpTo(ids, t, t) == ids
  {
    CeilOfRatio(|ids|, t);
    var size := CeilDiv(|ids|, t);
    assert PyFloorDiv(|ids| + t - 1, t) == size;
    SliceMinEnd(ids, s * size, s * size + size);
    ChunksPartition(ids, t);
  }

  /** `int(len(ids) * (1 - test_split))` */
  function SplitIndex(n: nat, testSplit: real): int {
    Trunc(n as real * (1.0 - testSplit))
  }

  /** `(ids[:k], ids[k:])` for the split index `k`. */
  function TrainTest(ids: seq<string>, testSplit: real): (seq<string>, seq<string>) {
    var k := SplitIndex(|ids|, testSplit);
    (PySlice(ids, 0, k), PySlice(ids, k, |ids|))
  }

  /** The training ids followed by the test ids are the list, for any
      split fraction; with a fraction in [0, 1] the training part is the
      first `int(n * (1 - test_split))` ids. */
  lemma TrainTestPartition(ids: seq<string>, testSplit: real)
    ensures TrainTest(ids, testSplit).0 + TrainTest(ids, testSplit).1 == ids
    ensures 0.0 <= testSplit <= 1.0 ==>
              0 <= SplitIndex(|ids|, testSplit) <= |ids| &&
              TrainTest(ids, testSplit).0 == ids[..SplitIndex(|ids|, testSplit)]
  {
    var k := SplitIndex(|ids|, testSplit);
    PrefixSuffixPartition(ids, k);
    if 0.0 <= testSplit <= 1.0 {
      SplitIndexBounds(|ids|, testSplit);
      assert PySlice(ids, 0, k) == ids[..k];
    }
  }

  /** With a fraction in [0, 1] the split index lies in `0 .. n`. */
  lemma SplitIndexBounds(n: nat, testSplit: real)
    requires 0.0 <= testSplit <= 1.0
    ensures 0 <= SplitIndex(n, testSplit) <= n
  {
    ScaleDown(n as real, 1.0 - testSplit);
  }

  /** Over a list without repeats, no id is both trained on and tested on. */
  lemma TrainTestDisjoint(ids: seq<string>, testSplit: real, id: string)
    requires Distinct(ids)
    ensures !(id in TrainTest(ids, testSplit).0 && id in TrainTest(ids, testSplit).1)
  {
    PrefixSuffixPartition(ids, SplitIndex(|ids|, testSplit));
  }

  // ---------------------------------------------------------------------
  // Conversion

  /** A grayscale picture: rows of 8-bit values. */
  type Gray = seq<seq<nat>>

  /** `msk[msk > 0] = 1` */
  function Binarise(m: Gray): (b: Gray)
    ensures |b| == |m| && forall i :: 0 <= i < |m| ==> |b[i]| == |m[i]|
    ensures forall i, j :: 0 <= i < |m| && 0 <= j < |m[i]| ==> b[i][j] <= 1 && (b[i][j] == 1 <==> m[i][j] > 0)
  {
    seq(|m|, i requires 0 <= i < |m| => seq(|m[i]|, j requires 0 <= j < |m[i]| => if m[i][j] > 0 then 1 else 0))
  }

  /** Binarising twice is binarising once. */
  lemma BinariseIdempotent(m: Gray)
    ensures Binarise(Binarise(m)) == Binarise(m)
  {
    var b := Binarise(m);
    var bb := Binarise(b);
    forall i | 0 <= i < |m| ensures bb[i] == b[i] {
      assert |bb[i]| == |b[i]|;
      forall j | 0 <= j < |b[i]| ensures bb[i][j] == b[i][j] {
        assert b[i][j] <= 1;
      }
    }
  }

  /** `img.size == 0`: no pixel at all. */
  predicate NoPixels(g: Gray) { forall i :: 0 <= i < |g| ==> |g[i]| == 0 }

  /** `convert_to_nifti` of `prepare_data_parallel.py`: the binarised label,
      or `None` (the `False` return) when either picture is unreadable or
      empty. */
  function ConvertChecked(img: Option<Gray>, msk: Option<Gray>): (r: Option<Gray>)
    ensures r.Some? <==> img.Some? && msk.Some? && !NoPixels(img.value) && !NoPixels(msk.value)
    ensures r.Some? ==> r.value == Binarise(msk.value)
  {
    if img.None? || msk.None? || NoPixels(img.value) || NoPixels(msk.value) then None
    else Some(Binarise(msk.value))
  }

  /** `convert_to_nifti` of `prepare_data.py`: only unreadable pictures fail. */
  function Convert(img: Option<Gray>, msk: Option<Gray>): (r: Option<Gray>)
    ensures r.Some? <==> img.Some? && msk.Some?
    ensures r.Some? ==> r.value == Binarise(msk.value)
  {
    if img.None? || msk.None? then None else Some(Binarise(msk.value))
  }

  /** One planned conversion: the source image and mask and the two outputs. */
  datatype Conversion = Conversion(image: string, mask: string, outImage: string, outLabel: string)

  /** The conversions for one id's entries: every entry whose mask exists,
      written to the image and label directories `dest` gives its source. */
  function ConversionsOf(es: seq<Entry>, existing: set<string>, dest: Source -> (string, string)): seq<Conversion> {
    if |es| == 0 then []
    else
      var e := es[0];
      var rest := ConversionsOf(es[1..], existing, dest);
      if PathJoin(e.source.masks, e.fname) !in existing then rest
      else
        [Conversion(PathJoin(e.source.images, e.fname), PathJoin(e.source.masks, e.fname),
                    PathJoin(dest(e.source).0, ImageOutName(e.fname)), PathJoin(dest(e.source).1, LabelOutName(e.fname)))]
        + rest
  }

  /** The conversions of a list of ids, in id order. */
  function Plan(ids: seq<string>, m: map<string, seq<Entry>>, existing: set<string>, dest: Source -> (string, string)): seq<Conversion> {
    Flatten(MapSeq((id: string) => ConversionsOf(Lookup(m, id), existing, dest), ids))
  }

  /** A conversion is planned exactly for an entry of a listed id whose
      mask exists; image and mask have the same file name. */
  lemma PlanMembers(ids: seq<string>, m: map<string, seq<Entry>>, existing: set<string>, dest: Source -> (string, string), c: Conversion)
    ensures c in Plan(ids, m, existing, dest) <==>
            exists i, e :: 0 <= i < |ids| && e in Lookup(m, ids[i]) && PathJoin(e.source.masks, e.fname) in existing &&
              c == Conversion(PathJoin(e.source.images, e.fname), PathJoin(e.source.masks, e.fname),
                              PathJoin(dest(e.source).0, ImageOutName(e.fname)), PathJoin(dest(e.source).1, LabelOutName(e.fname)))
  {
    var g := (id: string) => ConversionsOf(Lookup(m, id), existing, dest);
    var xs := MapSeq(g, ids);
    FlattenMembers(xs, c);
    if c in Plan(ids, m, existing, dest) {
      var i :| 0 <= i < |xs| && c in xs[i];
      var e := ConversionsOfMember(Lookup(m, ids[i]), existing, dest, c);
    }
    if exists i, e :: 0 <= i < |ids| && e in Lookup(m, ids[i]) && PathJoin(e.source.masks, e.fname) in existing &&
              c == Conversion(PathJoin(e.source.images, e.fname), PathJoin(e.source.masks, e.fname),
                              PathJoin(dest(e.source).0, ImageOutName(e.fname)), PathJoin(dest(e.source).1, LabelOutName(e.fname))) {
      var i, e :| 0 <= i < |ids| && e in Lookup(m, ids[i]) && PathJoin(e.source.masks, e.fname) in existing &&
              c == Conversion(PathJoin(e.source.images, e.fname), PathJoin(e.source.masks, e.fname),
                              PathJoin(dest(e.source).0, ImageOutName(e.fname)), PathJoin(dest(e.source).1, LabelOutName(e.fname)));
      ConversionsOfHas(Lookup(m, ids[i]), existing, dest, e);
      assert c in xs[i];
    }
  }

  lemma {:induction false} ConversionsOfMember(es: seq<Entry>, existing: set<string>, dest: Source -> (string, string), c: Conversion)
    returns (e: Entry)
    requires c in ConversionsOf(es, existing, dest)
    ensures e in es && PathJoin(e.source.masks, e.fname) in existing
    ensures c == Conversion(PathJoin(e.source.images, e.fname), PathJoin(e.source.masks, e.fname),
                            PathJoin(dest(e.source).0, ImageOutName(e.fname)), PathJoin(dest(e.source).1, LabelOutName(e.fname)))
  {
    var rest := ConversionsOf(es[1..], existing, dest);
    if c in rest {
      e := ConversionsOfMember(es[1..], existing, dest, c);
    } else {
      e := es[0];
    }
  }

  lemma {:induction false} ConversionsOfHas(es: seq<Entry>, existing: set<string>, dest: Source -> (string, string), e: Entry)
    requires e in es && PathJoin(e.source.masks, e.fname) in existing
    ensures Conversion(PathJoin(e.source.images, e.fname), PathJoin(e.source.masks, e.fname),
                       PathJoin(dest(e.source).0, ImageOutName(e.fname)), PathJoin(dest(e.source).1, LabelOutName(e.fname)))
            in ConversionsOf(es, existing, dest)
  {
    if es[0] != e {
      ConversionsOfHas(es[1..], existing, dest, e);
    }
  }

  /** How many planned conversions succeed, given the readable pictures. */
  function Succeeded(cs: seq<Conversion>, readable: map<string, Gray>): (n: nat)
    ensures n <= |cs|
  {
    if |cs| == 0 then 0
    else
      var ok := Convert(if cs[0].image in readable then Some(readable[cs[0].image]) else None,
                        if cs[0].mask in readable then Some(readable[cs[0].mask]) else None);
      (if ok.Some? then 1 else 0) + Succeeded(cs[1..], readable)
  }

  /** A conversion succeeds exactly when both its pictures are readable,
      so the count is the number of such conversions. */
  lemma {:induction false} SucceededCounts(cs: seq<Conversion>, readable: map<string, Gray>)
    ensures Succeeded(cs, readable) == |cs| - |Unreadable(cs, readable)|
  {
    if |cs| > 0 {
      SucceededCounts(cs[1..], readable);
    }
  }

  /** The planned conversions one of whose pictures cannot be read. */
  function Unreadable(cs: seq<Conversion>, readable: map<string, Gray>): (r: seq<Conversion>)
    ensures |r| <= |cs|
  {
    if |cs| == 0 then []
    else (if cs[0].image in readable && cs[0].mask in readable then [] else [cs[0]]) + Unreadable(cs[1..], readable)
  }

  // ---------------------------------------------------------------------
  // prepare_data_parallel.py

  /** The directories of the training set, and of the test set of one source. */
  function TrainDirs(outRoot: string, name: string): (string, string) {
    (PathJoin(PathJoin(outRoot, name), "imagesTr"), PathJoin(PathJoin(outRoot, name), "labelsTr"))
  }

  function TestDirs(outRoot: string, suffix: string, s: Source): (string, string) {
    var root := PathJoin(PathJoin(outRoot, "structured_test_sets" + suffix), "test_" + s.key);
    (PathJoin(root, "imagesTs"), PathJoin(root, "labelsTs"))
  }

  /** What one shard converts: the training and the test conversions. */
  datatype ShardPlan = ShardPlan(train: seq<Conversion>, test: seq<Conversion>)

  /** `main()` of the parallel script, given the master id list after the
      shuffle. `None` is an unknown model type or zero shards. */
  function PrepareShard(modelType: string, shuffledIds: seq<string>, numShards: int, shardId: int, outRoot: string,
                        testSplit: real, listings: map<string, seq<string>>, existing: set<string>): (r: Option<ShardPlan>)
    ensures r.Some? <==> (modelType == "12L" || modelType == "LL") && numShards != 0
  {
    var cfg := GetConfig(modelType);
    if cfg.None? then None
    else
      var c := cfg.value;
      var stream := Stream(c.sources, listings, true);
      StreamSkipping(c.sources, listings);
      var m := Gather(stream.value);
      var mine := Shard(shuffledIds, numShards, shardId);
      if mine.None? then None
      else
        var (train, test) := TrainTest(mine.value, testSplit);
        var name := DatasetName(c.datasetId, c.nameSuffix);
        Some(ShardPlan(Plan(train, m, existing, (s: Source) => TrainDirs(outRoot, name)),
                       Plan(test, m, existing, (s: Source) => TestDirs(outRoot, c.testSetSuffix, s))))
  }

  /** Skipping missing directories, gathering never fails. */
  lemma {:induction false} StreamSkipping(sources: seq<Source>, listings: map<string, seq<string>>)
    ensures Stream(sources, listings, true).Some?
  {
    if |sources| > 0 { StreamSkipping(sources[1..], listings); }
  }

  // ---------------------------------------------------------------------
  // prepare_data.py

  const Sources: seq<Source> := [
    Source("clean", "/mnt/parscratch/users/lip24dg/data/final_dataset/Cropped_Images",
           "/mnt/parscratch/users/lip24dg/data/final_dataset/Cropped_Masks"),
    Source("scanner", "/mnt/parscratch/users/lip24dg/data/final_dataset_augmented/Cropped_Images_Scanner",
           "/mnt/parscratch/users/lip24dg/data/final_dataset_augmented/Cropped_Masks_Scanner"),
    Source("physical", "/mnt/parscratch/users/lip24dg/data/final_dataset_augmented/Cropped_Images_Physical",
           "/mnt/parscratch/users/lip24dg/data/final_dataset_augmented/Cropped_Masks_Physical"),
    Source("chaos", "/mnt/parscratch/users/lip24dg/data/final_dataset_augmented/Cropped_Images_Chaos",
           "/mnt/parscratch/users/lip24dg/data/final_dataset_augmented/Cropped_Masks_Chaos")]

  /** The ids of the stream: each once, sorted (before the shuffle). */
  function UniqueIds(stream: seq<Entry>): (ids: seq<string>)
    ensures StrictlySorted(ids) && Distinct(ids)
    ensures forall id :: id in ids <==> exists i :: 0 <= i < |stream| && EcgId(stream[i].fname) == id
  {
    var all := MapSeq((e: Entry) => EcgId(e.fname), stream);
    var ids := SortedSet(all);
    forall i, j | 0 <= i < j < |ids| ensures ids[i] != ids[j] { LessAsymmetric(ids[i], ids[j]); }
    forall id ensures id in ids <==> exists i :: 0 <= i < |stream| && EcgId(stream[i].fname) == id {
      if id in all {
        var i :| 0 <= i < |all| && all[i] == id;
        assert EcgId(stream[i].fname) == id;
      }
      if exists i :: 0 <= i < |stream| && EcgId(stream[i].fname) == id {
        var i :| 0 <= i < |stream| && EcgId(stream[i].fname) == id;
        assert all[i] == id;
      }
    }
    ids
  }

  /** What the whole-set script does: the training and test conversions and
      the `train_cases` count. */
  datatype PreparePlan = PreparePlan(ids: seq<string>, train: seq<Conversion>, test: seq<Conversion>, trainCases: nat)

  /** `main()` up to the count; `order` is the shuffle's permutation of the
      sorted ids. `None` is the `FileNotFoundError` of a missing image
      directory. */
  function Prepare(outRoot: string, testSplit: real, order: seq<nat>, listings: map<string, seq<string>>,
                   existing: set<string>, readable: map<string, Gray>): (r: Option<PreparePlan>)
    ensures r.Some? <==> Stream(Sources, listings, false).Some?
    ensures r.Some? ==> r.value.trainCases == |r.value.train| - |Unreadable(r.value.train, readable)|
    ensures r.Some? ==> forall id :: id in r.value.ids ==>
      exists i :: 0 <= i < |Stream(Sources, listings, false).value| && EcgId(Stream(Sources, listings, false).value[i].fname) == id
  {
    var stream := Stream(Sources, listings, false);
    if stream.None? then None
    else
      var m := Gather(stream.value);
      var sorted := UniqueIds(stream.value);
      var ids := Permute(sorted, order);
      var (train, test) := TrainTest(ids, testSplit);
      var trainPlan := Plan(train, m, existing, (s: Source) => TrainDirs(outRoot, TargetDatasetName));
      var testPlan := Plan(test, m, existing, (s: Source) => TestDirs(outRoot, "", s));
      SucceededCounts(trainPlan, readable);
      Some(PreparePlan(ids, trainPlan, testPlan, Succeeded(trainPlan, readable)))
  }

  /** When the shuffle's order covers every position, the ids are exactly
      the ECG ids of the gathered files, each once. */
  lemma PrepareIds(outRoot: string, testSplit: real, order: seq<nat>, listings: map<string, seq<string>>,
                   existing: set<string>, readable: map<string, Gray>, id: string)
    requires Stream(Sources, listings, false).Some?
    requires forall i :: 0 <= i < |UniqueIds(Stream(Sources, listings, false).value)| ==> i in order
    ensures var stream := Stream(Sources, listings, false).value;
      var p := Prepare(outRoot, testSplit, order, listings, existing, readable).value;
      id in p.ids <==> exists i :: 0 <= i < |stream| && EcgId(stream[i].fname) == id
  {
    var stream := Stream(Sources, listings, false).value;
    PermuteElements(UniqueIds(stream), order, id);
  }

}
