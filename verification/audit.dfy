/** The WFDB completeness audit of `ecg-image-generator/audit_dataset.py`:
    files found by a directory walk are grouped into records (directory
    plus base name), and every record that lacks its `.dat` or `.hea` file
    is reported with the missing extensions. The walk itself is an input
    (the root and name of every file it yields); printing is not modelled. */
module Audit {
  import opened Base
  import opened Text
  import opened StrOrder

  const Dat: string := ".dat"
  const Hea: string := ".hea"

  predicate Target(ext: string) { ext == Dat || ext == Hea }

  /** The record key and extension of a file with a target extension. */
  function RecordOf(f: WalkedFile): (r: Option<(string, string)>)
    ensures r.Some? <==> Target(SplitExt(f.name).1)
    ensures r.Some? ==> r.value.0 == PathJoin(f.root, SplitExt(f.name).0) && r.value.1 == SplitExt(f.name).1
  {
    var (base, ext) := SplitExt(f.name);
    if Target(ext) then Some((PathJoin(f.root, base), ext)) else None
  }

  /** A `defaultdict(set)`: keys in insertion order and the set per key. */
  datatype Records = Records(keys: seq<string>, exts: map<string, set<string>>)

  predicate Valid(r: Records) {
    Distinct(r.keys) && (forall k :: k in r.exts ==> k in r.keys) && (forall k :: k in r.keys ==> k in r.exts)
  }

  /** `records[record_key].add(ext)`. */
  function Add(r: Records, key: string, ext: string): (r': Records)
    requires Valid(r)
    ensures Valid(r')
  {
    if key in r.exts then Records(r.keys, r.exts[key := r.exts[key] + {ext}])
    else Records(r.keys + [key], r.exts[key := {ext}])
  }

  /** The record key and extension of every walked file, `None` for the
      files the loop ignores. */
  function Entries(files: seq<WalkedFile>): (es: seq<Option<(string, string)>>)
    ensures |es| == |files| && forall i :: 0 <= i < |files| ==> es[i] == RecordOf(files[i])
  {
    seq(|files|, i requires 0 <= i < |files| => RecordOf(files[i]))
  }

  /** Adding the entries one by one. */
  function Group(es: seq<Option<(string, string)>>): (r: Records)
    ensures Valid(r)
  {
    if |es| == 0 then Records([], map[])
    else
      var r := Group(es[..|es| - 1]);
      match es[|es| - 1]
      case None => r
      case Some((key, ext)) => Add(r, key, ext)
  }

  /** Step 1 of `audit_wfdb_records`: group the walked files. */
  function Collect(files: seq<WalkedFile>): Records {
    Group(Entries(files))
  }

  /** Some entry is record `key` with extension `ext`. */
  predicate Found(es: seq<Option<(string, string)>>, key: string, ext: string) {
    exists i :: 0 <= i < |es| && es[i] == Some((key, ext))
  }

  predicate FoundKey(es: seq<Option<(string, string)>>, key: string) {
    exists i :: 0 <= i < |es| && es[i].Some? && es[i].value.0 == key
  }

  lemma FoundSnoc(init: seq<Option<(string, string)>>, x: Option<(string, string)>, key: string, ext: string)
    ensures FoundKey(init + [x], key) <==> FoundKey(init, key) || (x.Some? && x.value.0 == key)
    ensures Found(init + [x], key, ext) <==> Found(init, key, ext) || x == Some((key, ext))
  {
    var es := init + [x];
    if FoundKey(init, key) {
      var i :| 0 <= i < |init| && init[i].Some? && init[i].value.0 == key;
      assert es[i] == init[i];
    }
    if Found(init, key, ext) {
      var i :| 0 <= i < |init| && init[i] == Some((key, ext));
      assert es[i] == init[i];
    }
    assert es[|init|] == x;
    if FoundKey(es, key) {
      var i :| 0 <= i < |es| && es[i].Some? && es[i].value.0 == key;
      if i < |init| { assert init[i] == es[i]; }
    }
    if Found(es, key, ext) {
      var i :| 0 <= i < |es| && es[i] == Some((key, ext));
      if i < |init| { assert init[i] == es[i]; }
    }
  }

  /** One more entry adds its extension to its record and changes nothing else. */
  lemma GroupStep(init: seq<Option<(string, string)>>, x: Option<(string, string)>, key: string, ext: string)
    ensures var r := Group(init);
            var r' := Group(init + [x]);
            && (key in r'.exts <==> key in r.exts || (x.Some? && x.value.0 == key))
            && (key in r'.exts ==> (ext in r'.exts[key] <==> (key in r.exts && ext in r.exts[key]) || x == Some((key, ext))))
  {
    var es := init + [x];
    assert es[..|es| - 1] == init;
  }

  /** The grouping keeps exactly the records and extensions it was given. */
  lemma {:induction false} GroupContents(es: seq<Option<(string, string)>>, key: string, ext: string)
    ensures key in Group(es).exts <==> FoundKey(es, key)
    ensures key in Group(es).exts ==> (ext in Group(es).exts[key] <==> Found(es, key, ext))
    decreases |es|
  {
    if |es| > 0 {
      var n := |es| - 1;
      var init := es[..n];
      GroupContents(init, key, ext);
      assert es == init + [es[n]];
      GroupStep(init, es[n], key, ext);
      FoundSnoc(init, es[n], key, ext);
    }
  }

  /** The walk is grouped into exactly the records of its `.dat` and `.hea`
      files, each with exactly the extensions found for it. */
  lemma CollectContents(files: seq<WalkedFile>, key: string, ext: string)
    ensures key in Collect(files).exts <==>
            exists i :: 0 <= i < |files| && RecordOf(files[i]).Some? && RecordOf(files[i]).value.0 == key
    ensures key in Collect(files).exts ==>
            (ext in Collect(files).exts[key] <==> exists i :: 0 <= i < |files| && RecordOf(files[i]) == Some((key, ext)))
  {
    var es := Entries(files);
    GroupContents(es, key, ext);
    if FoundKey(es, key) {
      var i :| 0 <= i < |es| && es[i].Some? && es[i].value.0 == key;
      assert RecordOf(files[i]) == es[i];
    }
    if Found(es, key, ext) {
      var i :| 0 <= i < |es| && es[i] == Some((key, ext));
      assert RecordOf(files[i]) == es[i];
    }
    if exists i :: 0 <= i < |files| && RecordOf(files[i]).Some? && RecordOf(files[i]).value.0 == key {
      var i :| 0 <= i < |files| && RecordOf(files[i]).Some? && RecordOf(files[i]).value.0 == key;
      assert es[i] == RecordOf(files[i]);
    }
    if exists i :: 0 <= i < |files| && RecordOf(files[i]) == Some((key, ext)) {
      var i :| 0 <= i < |files| && RecordOf(files[i]) == Some((key, ext));
      assert es[i] == RecordOf(files[i]);
    }
  }

  /** `expected_set - found_extensions`, sorted: `.dat` sorts before `.hea`. */
  function Missing(found: set<string>): (m: seq<string>)
    ensures StrictlySorted(m)
    ensures forall e :: e in m <==> Target(e) && e !in found
  {
    assert Less(Dat, Hea);
    (if Dat !in found then [Dat] else []) + (if Hea !in found then [Hea] else [])
  }

  /** The totals and the incomplete records of steps 2 and 3. */
  datatype Tally = Tally(datCount: nat, heaCount: nat, incomplete: seq<(string, seq<string>)>)

  /** The loop over the sorted record keys. */
  function TallyOf(keys: seq<string>, exts: map<string, set<string>>): (t: Tally)
    requires forall k :: k in keys ==> k in exts
    ensures forall i :: 0 <= i < |t.incomplete| ==>
              t.incomplete[i].0 in keys && t.incomplete[i].1 == Missing(exts[t.incomplete[i].0]) && t.incomplete[i].1 != []
  {
    if |keys| == 0 then Tally(0, 0, [])
    else
      var k := keys[|keys| - 1];
      var t := TallyOf(keys[..|keys| - 1], exts);
      var found := exts[k];
      var m := Missing(found);
      Tally(t.datCount + (if Dat in found then 1 else 0),
            t.heaCount + (if Hea in found then 1 else 0),
            t.incomplete + (if m != [] then [(k, m)] else []))
  }

  /** The records among `keys` that have extension `ext`. */
  function Having(keys: seq<string>, exts: map<string, set<string>>, ext: string): set<string>
    requires forall k :: k in keys ==> k in exts
  {
    set k | k in keys && ext in exts[k]
  }

  /** Each total counts the records that have that extension. */
  lemma {:induction false} TallyCounts(keys: seq<string>, exts: map<string, set<string>>)
    requires forall k :: k in keys ==> k in exts
    requires Distinct(keys)
    ensures TallyOf(keys, exts).datCount == |Having(keys, exts, Dat)|
    ensures TallyOf(keys, exts).heaCount == |Having(keys, exts, Hea)|
    decreases |keys|
  {
    if |keys| > 0 {
      var n := |keys| - 1;
      var init := keys[..n];
      var k := keys[n];
      TallyCounts(init, exts);
      assert k !in init;
      HavingStep(keys, exts, Dat);
      HavingStep(keys, exts, Hea);
    }
  }

  lemma HavingStep(keys: seq<string>, exts: map<string, set<string>>, ext: string)
    requires forall k :: k in keys ==> k in exts
    requires |keys| > 0 && keys[|keys| - 1] !in keys[..|keys| - 1]
    ensures var k := keys[|keys| - 1];
            Having(keys, exts, ext) == Having(keys[..|keys| - 1], exts, ext) + (if ext in exts[k] then {k} else {})
    ensures keys[|keys| - 1] !in Having(keys[..|keys| - 1], exts, ext)
  {
    var n := |keys| - 1;
    assert keys == keys[..n] + [keys[n]];
  }

  predicate Listed(inc: seq<(string, seq<string>)>, k: string) {
    exists i :: 0 <= i < |inc| && inc[i].0 == k
  }

  lemma ListedAppend(a: seq<(string, seq<string>)>, b: seq<(string, seq<string>)>, k: string)
    ensures Listed(a + b, k) <==> Listed(a, k) || Listed(b, k)
  {
    if Listed(a, k) {
      var i :| 0 <= i < |a| && a[i].0 == k;
      assert (a + b)[i] == a[i];
    }
    if Listed(b, k) {
      var i :| 0 <= i < |b| && b[i].0 == k;
      assert (a + b)[|a| + i] == b[i];
    }
    if Listed(a + b, k) {
      var i :| 0 <= i < |a + b| && (a + b)[i].0 == k;
      if i < |a| { assert a[i] == (a + b)[i]; } else { assert b[i - |a|] == (a + b)[i]; }
    }
  }

  /** A record is listed exactly when it lacks `.dat` or `.hea`. */
  lemma {:induction false} TallyListsIncomplete(keys: seq<string>, exts: map<string, set<string>>, k: string)
    requires forall k :: k in keys ==> k in exts
    ensures Listed(TallyOf(keys, exts).incomplete, k) <==> k in keys && !(Dat in exts[k] && Hea in exts[k])
    decreases |keys|
  {
    if |keys| > 0 {
      var n := |keys| - 1;
      var init := keys[..n];
      TallyListsIncomplete(init, exts, k);
      var t := TallyOf(init, exts);
      var m := Missing(exts[keys[n]]);
      var last: seq<(string, seq<string>)> := if m != [] then [(keys[n], m)] else [];
      assert TallyOf(keys, exts).incomplete == t.incomplete + last;
      ListedAppend(t.incomplete, last, k);
      assert Listed(last, k) <==> k == keys[n] && m != [] by {
        if Listed(last, k) { var i :| 0 <= i < |last| && last[i].0 == k; }
        if k == keys[n] && m != [] { assert last[0].0 == k; }
      }
      assert k in keys <==> k in init || k == keys[n] by { assert keys == init + [keys[n]]; }
    }
  }

  /** Over strictly sorted keys the report lists records in key order. */
  lemma {:induction false} TallyOrdered(keys: seq<string>, exts: map<string, set<string>>)
    requires forall k :: k in keys ==> k in exts
    requires StrictlySorted(keys)
    ensures forall i, j :: 0 <= i < j < |TallyOf(keys, exts).incomplete| ==>
              Less(TallyOf(keys, exts).incomplete[i].0, TallyOf(keys, exts).incomplete[j].0)
    decreases |keys|
  {
    if |keys| > 0 {
      var n := |keys| - 1;
      var init := keys[..n];
      TallyOrdered(init, exts);
      var t := TallyOf(init, exts);
      var u := TallyOf(keys, exts);
      forall i, j | 0 <= i < j < |u.incomplete| ensures Less(u.incomplete[i].0, u.incomplete[j].0) {
        assert u.incomplete[i] == t.incomplete[i];
        if j < |t.incomplete| {
          assert u.incomplete[j] == t.incomplete[j];
        } else {
          var x := t.incomplete[i].0;
          assert x in init;
          var a :| 0 <= a < n && init[a] == x;
          assert keys[a] == x && u.incomplete[j].0 == keys[n];
        }
      }
    }
  }

  /** What `audit_wfdb_records` reports. */
  datatype Outcome =
    | NotADirectory
    | NoRecords
    | Report(tally: Tally)

  /** `audit_wfdb_records(directory_path)`, given whether the path is a
      directory and the files the walk yields. */
  function AuditRecords(isDir: bool, files: seq<WalkedFile>): (o: Outcome)
    ensures o.NotADirectory? <==> !isDir
    ensures o.NoRecords? <==> isDir && Collect(files).keys == []
  {
    if !isDir then NotADirectory
    else
      var r := Collect(files);
      if |r.keys| == 0 then NoRecords
      else
        SortElements(r.keys);
        Report(TallyOf(Sort(r.keys), r.exts))
  }

  /** The audit stops before any analysis exactly when no walked file has
      a `.dat` or `.hea` extension. */
  lemma NoRecordsIff(files: seq<WalkedFile>)
    ensures AuditRecords(true, files).NoRecords? <==>
            forall i :: 0 <= i < |files| ==> !Target(SplitExt(files[i].name).1)
  {
    var r := Collect(files);
    if exists i :: 0 <= i < |files| && Target(SplitExt(files[i].name).1) {
      var i :| 0 <= i < |files| && Target(SplitExt(files[i].name).1);
      var key := RecordOf(files[i]).value.0;
      CollectContents(files, key, Dat);
      assert key in r.exts;
    } else if |r.keys| > 0 {
      CollectContents(files, r.keys[0], Dat);
    }
  }

  /** The keys the report loops over: sorted, without repeats, exactly
      the collected records. */
  lemma SortedKeys(files: seq<WalkedFile>)
    ensures var r := Collect(files);
            var keys := Sort(r.keys);
            && StrictlySorted(keys) && Distinct(keys)
            && forall k :: k in keys <==> k in r.exts
  {
    var r := Collect(files);
    var keys := Sort(r.keys);
    SortElements(r.keys);
    SortDistinct(r.keys);
    forall i, j | 0 <= i < j < |keys| ensures keys[i] != keys[j] { LessAsymmetric(keys[i], keys[j]); }
  }

  /** Each total counts the records that have that extension. */
  lemma ReportCounts(files: seq<WalkedFile>)
    requires AuditRecords(true, files).Report?
    ensures var r := Collect(files);
            var t := AuditRecords(true, files).tally;
            && t.datCount == |set k | k in r.exts && Dat in r.exts[k]|
            && t.heaCount == |set k | k in r.exts && Hea in r.exts[k]|
  {
    var r := Collect(files);
    var keys := Sort(r.keys);
    SortedKeys(files);
    TallyCounts(keys, r.exts);
    assert Having(keys, r.exts, Dat) == set k | k in r.exts && Dat in r.exts[k];
    assert Having(keys, r.exts, Hea) == set k | k in r.exts && Hea in r.exts[k];
  }

  /** The listed records are exactly the incomplete ones. */
  lemma ReportIncomplete(files: seq<WalkedFile>, key: string)
    requires AuditRecords(true, files).Report?
    ensures var r := Collect(files);
            Listed(AuditRecords(true, files).tally.incomplete, key) <==> key in r.exts && !(Dat in r.exts[key] && Hea in r.exts[key])
  {
    var r := Collect(files);
    SortedKeys(files);
    TallyListsIncomplete(Sort(r.keys), r.exts, key);
  }

  /** The incomplete records are listed in sorted order, each with its
      sorted missing extensions. */
  lemma ReportOrdered(files: seq<WalkedFile>)
    requires AuditRecords(true, files).Report?
    ensures var r := Collect(files);
            var inc := AuditRecords(true, files).tally.incomplete;
            && (forall i, j :: 0 <= i < j < |inc| ==> Less(inc[i].0, inc[j].0))
            && (forall i :: 0 <= i < |inc| ==> inc[i].0 in r.exts && inc[i].1 == Missing(r.exts[inc[i].0]))
  {
    var r := Collect(files);
    SortedKeys(files);
    TallyOrdered(Sort(r.keys), r.exts);
  }
}
