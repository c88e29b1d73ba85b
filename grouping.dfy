/** RAW/JPG pairing, grouping by camera/year/month, the file-type separation decision and the
    folder layout of `organize_photos` (chronicle/organize_photos.py). */
module Grouping {
  import opened Text
  import opened Collections
  import opened Classify
  import opened Metadata
  import opened Paths

  /** `{info["stem"].lower(): info for info in infos if info["type"] == category}`: one entry
      per lower-cased stem, holding the last such file. */
  function LastByStem(infos: seq<FileInfo>, category: Category): map<string, FileInfo>
    decreases |infos|
  {
    if |infos| == 0 then map[]
    else
      var m := LastByStem(infos[..|infos| - 1], category);
      var last := infos[|infos| - 1];
      if last.category == category then m[Lower(last.stem) := last] else m
  }

  predicate HasStem(info: FileInfo, category: Category, stem: string) {
    info.category == category && Lower(info.stem) == stem
  }

  /** The keys are the lower-cased stems of the files of the category. */
  lemma {:induction false} LastByStemKeys(infos: seq<FileInfo>, category: Category, stem: string)
    ensures stem in LastByStem(infos, category)
      <==> exists i :: 0 <= i < |infos| && HasStem(infos[i], category, stem)
    decreases |infos|
  {
    if |infos| > 0 {
      var prefix := infos[..|infos| - 1];
      var last := infos[|infos| - 1];
      LastByStemKeys(prefix, category, stem);
      if !HasStem(last, category, stem) {
        if exists i :: 0 <= i < |infos| && HasStem(infos[i], category, stem) {
          var i :| 0 <= i < |infos| && HasStem(infos[i], category, stem);
          assert i < |prefix| && HasStem(prefix[i], category, stem);
        }
        if exists i :: 0 <= i < |prefix| && HasStem(prefix[i], category, stem) {
          var i :| 0 <= i < |prefix| && HasStem(prefix[i], category, stem);
          assert HasStem(infos[i], category, stem);
        }
      }
    }
  }

  /** Each entry is the last file with its stem. */
  lemma {:induction false} LastByStemLast(infos: seq<FileInfo>, category: Category, stem: string)
    returns (i: nat)
    requires stem in LastByStem(infos, category)
    ensures i < |infos| && LastByStem(infos, category)[stem] == infos[i]
    ensures HasStem(infos[i], category, stem)
    ensures forall j :: i < j < |infos| ==> !HasStem(infos[j], category, stem)
    decreases |infos|
  {
    var prefix := infos[..|infos| - 1];
    var last := infos[|infos| - 1];
    if HasStem(last, category, stem) {
      i := |infos| - 1;
    } else {
      assert LastByStem(infos, category)[stem] == LastByStem(prefix, category)[stem];
      i := LastByStemLast(prefix, category, stem);
      assert infos[i] == prefix[i];
      forall j | i < j < |infos|
        ensures !HasStem(infos[j], category, stem)
      {
        if j < |prefix| {
          assert infos[j] == prefix[j];
        }
      }
    }
  }

  /** A RAW and a JPG count as a pair when they share camera, year and month. */
  predicate SameGroup(a: FileInfo, b: FileInfo) {
    a.camera == b.camera && a.year == b.year && a.month == b.month
  }

  /** The RAW stems whose JPG namesake is in the same group. */
  function PairsIn(raws: map<string, FileInfo>, jpgs: map<string, FileInfo>): set<string> {
    set stem | stem in raws && stem in jpgs && SameGroup(raws[stem], jpgs[stem])
  }

  /** The stems that `organize_photos` counts as RAW/JPG pairs. */
  function PairedStems(infos: seq<FileInfo>): set<string> {
    PairsIn(LastByStem(infos, Raw), LastByStem(infos, Jpg))
  }

  /** The pair counter: the maps from lower-cased stem to the last RAW and the last JPG file
      with it, then the loop over the RAW stems. */
  method CountRawJpgPairs(infos: seq<FileInfo>) returns (pairs: nat)
    ensures pairs == |PairedStems(infos)|
  {
    var rawFiles := map[];
    var jpgFiles := map[];
    for k := 0 to |infos|
      invariant rawFiles == LastByStem(infos[..k], Raw)
      invariant jpgFiles == LastByStem(infos[..k], Jpg)
    {
      assert infos[..k + 1][..k] == infos[..k];
      var info := infos[k];
      if info.category == Raw {
        rawFiles := rawFiles[Lower(info.stem) := info];
      }
      if info.category == Jpg {
        jpgFiles := jpgFiles[Lower(info.stem) := info];
      }
    }
    assert infos[..|infos|] == infos;
    pairs := CountPairs(rawFiles, jpgFiles);
  }

  /** The loop over the RAW stems, each visited once. */
  method CountPairs(rawFiles: map<string, FileInfo>, jpgFiles: map<string, FileInfo>)
    returns (pairs: nat)
    ensures pairs == |PairsIn(rawFiles, jpgFiles)|
  {
    ghost var paired := PairsIn(rawFiles, jpgFiles);
    pairs := 0;
    var todo := rawFiles.Keys;
    while todo != {}
      invariant todo <= rawFiles.Keys
      invariant pairs == |paired - todo|
      decreases |todo|
    {
      var stem :| stem in todo;
      if stem in jpgFiles && SameGroup(rawFiles[stem], jpgFiles[stem]) {
        VisitPaired(paired, todo, stem);
        pairs := pairs + 1;
      } else {
        VisitUnpaired(paired, todo, stem);
      }
      todo := todo - {stem};
    }
    assert paired - {} == paired;
  }

  lemma VisitPaired(paired: set<string>, todo: set<string>, stem: string)
    requires stem in todo && stem in paired
    ensures |paired - (todo - {stem})| == |paired - todo| + 1
  {
    assert paired - (todo - {stem}) == (paired - todo) + {stem};
  }

  lemma VisitUnpaired(paired: set<string>, todo: set<string>, stem: string)
    requires stem !in paired
    ensures paired - (todo - {stem}) == paired - todo
  {
  }

  /** At most one pair per RAW stem and one per JPG stem. */
  lemma PairsBounded(infos: seq<FileInfo>)
    ensures |PairedStems(infos)| <= |LastByStem(infos, Raw)|
    ensures |PairedStems(infos)| <= |LastByStem(infos, Jpg)|
  {
    var p := PairedStems(infos);
    assert p <= LastByStem(infos, Raw).Keys;
    assert p <= LastByStem(infos, Jpg).Keys;
    SubsetCard(p, LastByStem(infos, Raw).Keys);
    SubsetCard(p, LastByStem(infos, Jpg).Keys);
  }

  /** A video or a file of another type never changes the pair count. */
  lemma OtherFilesDoNotPair(infos: seq<FileInfo>, x: FileInfo)
    requires x.category == Video || x.category == Other
    ensures PairedStems(infos + [x]) == PairedStems(infos)
  {
    assert (infos + [x])[..|infos|] == infos;
  }

  /** The key `organize_photos` groups by. */
  datatype GroupKey = GroupKey(camera: string, year: string, month: string)

  function KeyOf(info: FileInfo): GroupKey {
    GroupKey(info.camera, info.year, info.month)
  }

  /** The key of every file, in order. */
  function KeySeq(infos: seq<FileInfo>): (r: seq<GroupKey>)
    ensures |r| == |infos| && forall i :: 0 <= i < |infos| ==> r[i] == KeyOf(infos[i])
  {
    seq(|infos|, i requires 0 <= i < |infos| => KeyOf(infos[i]))
  }

  /** The keys of `groups`, in the order the defaultdict first sees them. */
  function GroupOrder(infos: seq<FileInfo>): seq<GroupKey> {
    FirstAppearances(KeySeq(infos))
  }

  /** The files of one group, in their original order. */
  function Members(infos: seq<FileInfo>, key: GroupKey): seq<FileInfo>
    decreases |infos|
  {
    if |infos| == 0 then []
    else
      var rest := Members(infos[..|infos| - 1], key);
      if KeyOf(infos[|infos| - 1]) == key then rest + [infos[|infos| - 1]] else rest
  }

  /** Each group appears once, and the groups are exactly the keys of the files. */
  lemma GroupOrderSpec(infos: seq<FileInfo>)
    ensures Distinct(GroupOrder(infos))
    ensures forall key :: key in GroupOrder(infos) <==>
              exists i :: 0 <= i < |infos| && KeyOf(infos[i]) == key
  {
    FirstAppearancesSpec(KeySeq(infos));
    forall key | key in KeySeq(infos)
      ensures exists i :: 0 <= i < |infos| && KeyOf(infos[i]) == key
    {
      var i :| 0 <= i < |infos| && KeySeq(infos)[i] == key;
    }
  }

  /** Appending a file appends its key to the order when the key is new. */
  lemma GroupOrderAppend(infos: seq<FileInfo>, x: FileInfo)
    ensures GroupOrder(infos + [x]) == if KeyOf(x) in GroupOrder(infos) then GroupOrder(infos)
                                       else GroupOrder(infos) + [KeyOf(x)]
  {
    var ks := KeySeq(infos + [x]);
    assert ks[..|ks| - 1] == KeySeq(infos);
  }

  /** A group holds exactly the files with its key, as often as the input does, and nothing
      else. */
  lemma {:induction false} MembersCount(infos: seq<FileInfo>, key: GroupKey)
    ensures forall x :: multiset(Members(infos, key))[x]
                        == if KeyOf(x) == key then multiset(infos)[x] else 0
    decreases |infos|
  {
    if |infos| > 0 {
      var prefix := infos[..|infos| - 1];
      var last := infos[|infos| - 1];
      MembersCount(prefix, key);
      assert infos == prefix + [last];
      assert multiset(infos) == multiset(prefix) + multiset{last};
    }
  }

  /** A group is non-empty exactly when some file has its key. */
  lemma {:induction false} MembersNonEmpty(infos: seq<FileInfo>, key: GroupKey)
    ensures (exists i :: 0 <= i < |infos| && KeyOf(infos[i]) == key) <==> |Members(infos, key)| > 0
    decreases |infos|
  {
    if |infos| > 0 {
      var prefix := infos[..|infos| - 1];
      var last := infos[|infos| - 1];
      MembersNonEmpty(prefix, key);
      if KeyOf(last) != key {
        if exists i :: 0 <= i < |infos| && KeyOf(infos[i]) == key {
          var i :| 0 <= i < |infos| && KeyOf(infos[i]) == key;
          assert i < |prefix| && KeyOf(prefix[i]) == key;
        }
        if exists i :: 0 <= i < |prefix| && KeyOf(prefix[i]) == key {
          var i :| 0 <= i < |prefix| && KeyOf(prefix[i]) == key;
          assert KeyOf(infos[i]) == key;
        }
      }
    }
  }

  /** The groups one after the other, in the given key order. */
  function Flatten(infos: seq<FileInfo>, keys: seq<GroupKey>): seq<FileInfo>
    decreases |keys|
  {
    if |keys| == 0 then []
    else Flatten(infos, keys[..|keys| - 1]) + Members(infos, keys[|keys| - 1])
  }

  /** Appending one file to the input appends it to its own group, if that group is listed. */
  lemma {:induction false} FlattenAppend(infos: seq<FileInfo>, x: FileInfo, keys: seq<GroupKey>)
    requires Distinct(keys)
    ensures multiset(Flatten(infos + [x], keys))
      == multiset(Flatten(infos, keys)) + (if KeyOf(x) in keys then multiset{x} else multiset{})
    decreases |keys|
  {
    if |keys| > 0 {
      var init := keys[..|keys| - 1];
      var k := keys[|keys| - 1];
      assert Distinct(init);
      FlattenAppend(infos, x, init);
      assert (infos + [x])[..|infos|] == infos;
      assert KeyOf(x) in keys <==> KeyOf(x) in init || KeyOf(x) == k;
      assert KeyOf(x) == k ==> KeyOf(x) !in init;
    }
  }

  lemma FlattenSnoc(infos: seq<FileInfo>, keys: seq<GroupKey>, key: GroupKey)
    ensures Flatten(infos, keys + [key]) == Flatten(infos, keys) + Members(infos, key)
  {
    assert (keys + [key])[..|keys|] == keys;
  }

  /** Groups partition the file list: every file is in its group once, and in no other. */
  lemma {:induction false} GroupsPartition(infos: seq<FileInfo>)
    ensures multiset(Flatten(infos, GroupOrder(infos))) == multiset(infos)
    decreases |infos|
  {
    if |infos| > 0 {
      var prefix := infos[..|infos| - 1];
      var x := infos[|infos| - 1];
      assert infos == prefix + [x];
      var order := GroupOrder(prefix);
      GroupsPartition(prefix);
      GroupOrderSpec(prefix);
      FlattenAppend(prefix, x, order);
      GroupOrderAppend(prefix, x);
      if KeyOf(x) !in order {
        var key := KeyOf(x);
        assert Members(prefix, key) == [] by {
          MembersNonEmpty(prefix, key);
        }
        assert Members(infos, key) == [x];
        FlattenSnoc(infos, order, key);
        assert multiset(Flatten(infos, order)) == multiset(prefix);
      } else {
        assert multiset(Flatten(infos, order)) == multiset(prefix) + multiset{x};
      }
    }
  }

  /** The `groups` defaultdict of `organize_photos`, with its keys in insertion order. */
  method GroupFiles(infos: seq<FileInfo>) returns (order: seq<GroupKey>, groups: map<GroupKey, seq<FileInfo>>)
    ensures order == GroupOrder(infos)
    ensures groups.Keys == set key | key in order
    ensures forall key :: key in groups ==> groups[key] == Members(infos, key)
  {
    order := [];
    groups := map[];
    for k := 0 to |infos|
      invariant order == GroupOrder(infos[..k])
      invariant groups.Keys == set key | key in order
      invariant forall key :: key in groups ==> groups[key] == Members(infos[..k], key)
      invariant forall key :: key !in groups ==> Members(infos[..k], key) == []
    {
      assert infos[..k + 1][..k] == infos[..k];
      var info := infos[k];
      var key := KeyOf(info);
      assert infos[..k + 1] == infos[..k] + [info];
      GroupOrderAppend(infos[..k], info);
      if key in groups {
        groups := groups[key := groups[key] + [info]];
      } else {
        order := order + [key];
        groups := groups[key := [info]];
      }
    }
    assert infos[..|infos|] == infos;
  }

  predicate HasCategory(files: seq<FileInfo>, c: Category) {
    exists i :: 0 <= i < |files| && files[i].category == c
  }

  /** `needs_separation`: the option is on and the group mixes JPG with RAW, or holds a video. */
  predicate NeedsSeparation(separate: bool, files: seq<FileInfo>) {
    separate && ((HasCategory(files, Jpg) && HasCategory(files, Raw)) || HasCategory(files, Video))
  }

  /** The folder of a group under the destination for an organisation scheme; any scheme other
      than the three known ones is laid out as camera/year/month. A camera label `.` adds no
      segment, as with `pathlib`; year and month labels are never empty or `.`. */
  function BaseFolder(dest: seq<string>, scheme: string, key: GroupKey): seq<string> {
    if scheme == "camera_year_month" then dest + Segment(key.camera) + [key.year, key.month]
    else if scheme == "year_month" then dest + [key.year, key.month]
    else if scheme == "year_month_camera" then dest + [key.year, key.month] + Segment(key.camera)
    else dest + Segment(key.camera) + [key.year, key.month]
  }

  /** The folder of one file: its group's folder, plus a RAW, JPG or VIDEO subfolder when the
      group is separated. */
  function FolderFor(base: seq<string>, needsSeparation: bool, category: Category): seq<string> {
    if needsSeparation && category in {Jpg, Raw, Video} then base + [CategoryName(category)]
    else base
  }

  /** The layout of every folder: under the destination, the group's labels in the scheme's
      order (camera/year/month for unknown schemes), then a type subfolder exactly for a
      JPG, RAW or VIDEO file of a separated group. */
  lemma FolderLayout(dest: seq<string>, scheme: string, key: GroupKey, needsSeparation: bool,
                     category: Category)
    ensures var base := BaseFolder(dest, scheme, key);
      var folder := FolderFor(base, needsSeparation, category);
      && base[..|dest|] == dest && folder[..|base|] == base
      && (scheme !in {"camera_year_month", "year_month", "year_month_camera"} ==>
            base == BaseFolder(dest, "camera_year_month", key))
      && (scheme == "year_month" ==> base[|dest|..] == [key.year, key.month])
      && (scheme == "year_month_camera" ==>
            base[|dest|..] == [key.year, key.month] + Segment(key.camera))
      && (scheme != "year_month" && scheme != "year_month_camera" ==>
            base[|dest|..] == Segment(key.camera) + [key.year, key.month])
      && (key.camera != "" && key.camera != "." && scheme != "year_month" ==>
            key.camera in base[|dest|..])
      && (|folder| == |base| + 1 <==> needsSeparation && category != Other)
      && (|folder| == |base| + 1 ==> folder[|base|] == CategoryName(category))
  {
  }

  /** Below the destination a folder has no empty or `.` segment, and it has a `..` segment
      only when the camera label is `..`, which `clean` lets through. */
  lemma FolderSegments(dest: seq<string>, scheme: string, key: GroupKey, needsSeparation: bool,
                       category: Category)
    requires PlainSegment(key.year) && PlainSegment(key.month)
    ensures var folder := FolderFor(BaseFolder(dest, scheme, key), needsSeparation, category);
      forall k :: |dest| <= k < |folder| ==>
        folder[k] != "" && folder[k] != "." && (folder[k] == ".." ==> key.camera == "..")
  {
    FolderLayout(dest, scheme, key, needsSeparation, category);
    var base := BaseFolder(dest, scheme, key);
    var folder := FolderFor(base, needsSeparation, category);
    forall k | |dest| <= k < |folder|
      ensures folder[k] != "" && folder[k] != "." && (folder[k] == ".." ==> key.camera == "..")
    {
      if k < |base| {
        assert folder[k] == base[|dest|..][k - |dest|];
      } else {
        assert folder[k] == CategoryName(category);
      }
    }
  }

  /** A group with a video is always separated when the option is on, even with nothing else. */
  lemma VideoGroupSeparated(files: seq<FileInfo>)
    requires HasCategory(files, Video)
    ensures NeedsSeparation(true, files)
  {
  }
}
