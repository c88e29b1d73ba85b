/** `organize_photos` of chronicle/organize_photos.py: the options taken from the settings store,
    the first pass that resolves every file's camera and date, RAW/JPG pair counting, grouping,
    the second pass that copies or moves every file into its folder, and the checksum log. */
module Organizer {
  import opened Wrappers
  import opened Text
  import opened Paths
  import opened Collections
  import opened Classify
  import opened CameraNames
  import opened Metadata
  import opened Grouping
  import opened Placement
  import opened Settings
  import Report

  // ---------------------------------------------------------------------------------------
  // Options
  // ---------------------------------------------------------------------------------------

  /** A string setting as the organizer uses it. The organizer only ever compares the scheme
      and the month format with non-empty string literals, so a stored value that is not a
      string behaves exactly like "". */
  function AsText(v: Value): (s: string)
    ensures v.Str? ==> s == v.s
  {
    if v.Str? then v.s else ""
  }

  /** Comparing `AsText(v)` with a non-empty literal is comparing the stored value itself
      with that string. */
  lemma AsTextCompare(v: Value, literal: string)
    requires literal != ""
    ensures AsText(v) == literal <==> v == Str(literal)
  {
  }

  /** The three options `organize_photos` reads from the settings when they are not given. */
  datatype Options = Options(scheme: string, monthFormat: string, separate: bool)

  function ResolvedOptions(file: SettingsFile, scheme: Option<string>, monthFormat: Option<string>,
                           separate: Option<bool>): Options
  {
    var settings := LoadedSettings(file);
    LoadedSettingsSpec(file);
    Options(
      if scheme.Some? then scheme.value else AsText(settings["organization_scheme"]),
      if monthFormat.Some? then monthFormat.value else AsText(settings["month_format"]),
      if separate.Some? then separate.value else Truthy(settings["separate_file_types"]))
  }

  /** Given options are used as they are; missing ones come from the settings, which without
      a settings file are the camera/year/month scheme, full month names and separation. */
  lemma ResolvedOptionsSpec(file: SettingsFile, scheme: Option<string>, monthFormat: Option<string>,
                            separate: Option<bool>)
    ensures var o := ResolvedOptions(file, scheme, monthFormat, separate);
      && (scheme.Some? ==> o.scheme == scheme.value)
      && (monthFormat.Some? ==> o.monthFormat == monthFormat.value)
      && (separate.Some? ==> o.separate == separate.value)
      && (!file.Parsed? && scheme.None? ==> o.scheme == "camera_year_month")
      && (!file.Parsed? && monthFormat.None? ==> o.monthFormat == "full")
      && (!file.Parsed? && separate.None? ==> o.separate)
  {
    LoadedSettingsSpec(file);
  }

  /** The start of `organize_photos`: each option that is `None` is loaded from the settings. */
  method LoadOptions(store: SettingsStore, scheme: Option<string>, monthFormat: Option<string>,
                     separate: Option<bool>) returns (o: Options)
    ensures o == ResolvedOptions(store.file, scheme, monthFormat, separate)
  {
    var s, m, sep;
    if scheme.None? {
      var v := store.GetOrganizationScheme();
      s := AsText(v);
    } else {
      s := scheme.value;
    }
    if monthFormat.None? {
      var v := store.GetMonthFormat();
      m := AsText(v);
    } else {
      m := monthFormat.value;
    }
    if separate.None? {
      var v := store.GetSeparateFileTypes();
      sep := Truthy(v);
    } else {
      sep := separate.value;
    }
    o := Options(s, m, sep);
  }

  // ---------------------------------------------------------------------------------------
  // First pass
  // ---------------------------------------------------------------------------------------

  /** A file the first pass keeps: its lower-cased suffix is one of `extensions`, which in a
      run are the photo, RAW and video extensions together. The properties below hold for
      every extension set. */
  predicate Organizable(f: SourceFile, extensions: set<string>) {
    Extension(f.path.name) in extensions
  }

  /** The files of the source tree, in walk order, that the first pass keeps. */
  function Accepted(sources: seq<SourceFile>, extensions: set<string>): (r: seq<SourceFile>)
    ensures |r| <= |sources|
    ensures forall f :: f in r ==> f in sources && Organizable(f, extensions)
    decreases |sources|
  {
    if |sources| == 0 then []
    else
      var init := Accepted(sources[..|sources| - 1], extensions);
      var f := sources[|sources| - 1];
      if Organizable(f, extensions) then init + [f] else init
  }

  /** Every organizable file of the tree is kept. */
  lemma {:induction false} AcceptedComplete(sources: seq<SourceFile>, extensions: set<string>, f: SourceFile)
    requires f in sources && Organizable(f, extensions)
    ensures f in Accepted(sources, extensions)
    decreases |sources|
  {
    var init := sources[..|sources| - 1];
    if f != sources[|sources| - 1] {
      assert sources == init + [sources[|sources| - 1]];
      AcceptedComplete(init, extensions, f);
    }
  }

  /** The first pass is an order-keeping filter: the kept files of a concatenation are the kept
      files of each part, one after the other, and a single file is kept exactly when it is
      organizable. */
  lemma {:induction false} AcceptedConcat(a: seq<SourceFile>, b: seq<SourceFile>, extensions: set<string>)
    ensures Accepted(a + b, extensions) == Accepted(a, extensions) + Accepted(b, extensions)
    decreases |b|
  {
    if |b| == 0 {
      assert a + b == a;
    } else {
      var b', f := b[..|b| - 1], b[|b| - 1];
      var last := if Organizable(f, extensions) then [f] else [];
      assert (a + b)[..|a + b| - 1] == a + b';
      assert (a + b)[|a + b| - 1] == f;
      assert Accepted(a + b, extensions) == Accepted(a + b', extensions) + last;
      assert Accepted(b, extensions) == Accepted(b', extensions) + last;
      AcceptedConcat(a, b', extensions);
    }
  }

  lemma AcceptedSingle(f: SourceFile, extensions: set<string>)
    ensures Accepted([f], extensions) == if Organizable(f, extensions) then [f] else []
  {
    assert [f][..0] == [];
  }

  function Resolutions(files: seq<SourceFile>, parse: string -> Option<DateTime>,
                       interactive: bool, monthFormat: string): (r: seq<Resolution>)
    ensures |r| == |files|
    decreases |files|
  {
    if |files| == 0 then []
    else
      Resolutions(files[..|files| - 1], parse, interactive, monthFormat)
        + [Resolve(files[|files| - 1], parse, interactive, monthFormat)]
  }

  /** Each file is resolved on its own. */
  lemma {:induction false} ResolutionsSpec(files: seq<SourceFile>, parse: string -> Option<DateTime>,
                                           interactive: bool, monthFormat: string, i: nat)
    requires i < |files|
    ensures Resolutions(files, parse, interactive, monthFormat)[i]
      == Resolve(files[i], parse, interactive, monthFormat)
    decreases |files|
  {
    if i < |files| - 1 {
      ResolutionsSpec(files[..|files| - 1], parse, interactive, monthFormat, i);
    }
  }

  function InfosOf(rs: seq<Resolution>): (r: seq<FileInfo>)
    ensures |r| == |rs| && forall i :: 0 <= i < |rs| ==> r[i] == rs[i].info
  {
    seq(|rs|, i requires 0 <= i < |rs| => rs[i].info)
  }

  function CamerasOf(infos: seq<FileInfo>): (r: seq<string>)
    ensures |r| == |infos| && forall i :: 0 <= i < |infos| ==> r[i] == infos[i].camera
  {
    seq(|infos|, i requires 0 <= i < |infos| => infos[i].camera)
  }

  function PathsOf(infos: seq<FileInfo>): (r: seq<Path>)
    ensures |r| == |infos| && forall i :: 0 <= i < |infos| ==> r[i] == infos[i].path
  {
    seq(|infos|, i requires 0 <= i < |infos| => infos[i].path)
  }

  /** The three counters of missing metadata of the statistics. */
  datatype Counter = NoExif | NoDate | NoCamera

  predicate Counts(r: Resolution, c: Counter) {
    match c
    case NoExif => r.noExif
    case NoDate => r.noDate
    case NoCamera => r.noCamera
  }

  /** The number of records a counter applies to. */
  function Count(rs: seq<Resolution>, c: Counter): nat {
    |set i | 0 <= i < |rs| && Counts(rs[i], c)|
  }

  /** A counter goes up by one exactly for a record it applies to. */
  lemma CountAppend(rs: seq<Resolution>, r: Resolution, c: Counter)
    ensures Count(rs + [r], c) == Count(rs, c) + (if Counts(r, c) then 1 else 0)
  {
    var before := set i | 0 <= i < |rs| && Counts(rs[i], c);
    var after := set i | 0 <= i < |rs + [r]| && Counts((rs + [r])[i], c);
    if Counts(r, c) {
      assert after == before + {|rs|};
    } else {
      assert after == before;
    }
  }

  /** No counter exceeds the number of records. */
  lemma {:induction false} CountBound(rs: seq<Resolution>, c: Counter)
    ensures Count(rs, c) <= |rs|
    decreases |rs|
  {
    if |rs| == 0 {
      NoneCounted(rs, c);
    } else {
      var init := rs[..|rs| - 1];
      CountBound(init, c);
      CountAppend(init, rs[|rs| - 1], c);
      assert init + [rs[|rs| - 1]] == rs;
    }
  }

  /** What the first pass collects: the file records, the three counters and the camera
      histogram with its keys in the order the cameras were first seen. */
  datatype FirstPass = FirstPass(infos: seq<FileInfo>, noExif: nat, noDate: nat, noCamera: nat,
                                 cameras: map<string, nat>, cameraOrder: seq<string>)

  /** The statistics of the first pass over a run of resolved files. */
  function Summarize(rs: seq<Resolution>): FirstPass {
    var infos := InfosOf(rs);
    FirstPass(infos, Count(rs, NoExif), Count(rs, NoDate), Count(rs, NoCamera),
              Tally(CamerasOf(infos)), FirstAppearances(CamerasOf(infos)))
  }

  function FirstPassOf(sources: seq<SourceFile>, extensions: set<string>,
                       parse: string -> Option<DateTime>, interactive: bool, monthFormat: string)
    : FirstPass
  {
    Summarize(Resolutions(Accepted(sources, extensions), parse, interactive, monthFormat))
  }

  /** One more source file extends the first pass by its resolution, if it is kept. */
  lemma FirstPassStep(sources: seq<SourceFile>, extensions: set<string>, k: nat, parse: string -> Option<DateTime>,
                      interactive: bool, monthFormat: string)
    requires k < |sources|
    ensures var f := sources[k];
      var rs := Resolutions(Accepted(sources[..k], extensions), parse, interactive, monthFormat);
      var rs' := Resolutions(Accepted(sources[..k + 1], extensions), parse, interactive, monthFormat);
      && (Organizable(f, extensions) ==> rs' == rs + [Resolve(f, parse, interactive, monthFormat)])
      && (!Organizable(f, extensions) ==> rs' == rs)
  {
    assert sources[..k + 1][..k] == sources[..k];
  }

  /** The body of the first-pass loop for one kept file: its camera and date, the counters it
      adds to, and the prompts for what is missing in interactive mode. */
  method ResolveFile(f: SourceFile, parse: string -> Option<DateTime>, interactive: bool,
                     monthFormat: string) returns (r: Resolution)
    ensures r == Resolve(f, parse, interactive, monthFormat)
  {
    var name := f.path.name;
    var camera := CameraOf(name, f.exif);
    var date := DateTaken(name, f.exif, parse, f.mtime);
    var exifMissing := !IsVideo(name) && |f.exif| == 0;
    var needsCamera := camera == UnknownCamera;
    var needsDate := date.None?;
    var dateMissing, cameraMissing := false, false;
    if (needsCamera || needsDate) && interactive {
      var p := PromptForMetadata(f.answers, monthFormat);
      if needsCamera {
        camera := p.camera;
      }
      if needsDate {
        if p.year != UnknownYear && p.month != UnknownMonth {
          date := PromptedDate(p.year, p.month);
          dateMissing := date.None?;
        } else {
          dateMissing := true;
        }
      }
    } else {
      cameraMissing := needsCamera;
      dateMissing := needsDate;
    }
    assert Settled(camera, date, dateMissing, cameraMissing)
        == Settle(CameraOf(name, f.exif), DateTaken(name, f.exif, parse, f.mtime), f.answers,
                  interactive, monthFormat);
    var info := FileInfo(f.path, camera, YearLabel(date), MonthLabel(date, monthFormat),
                         FileTypeCategory(name), Stem(name));
    r := Resolution(info, exifMissing, dateMissing, cameraMissing);
  }

  lemma InfosAppend(done: seq<Resolution>, r: Resolution)
    ensures InfosOf(done + [r]) == InfosOf(done) + [r.info]
    ensures CamerasOf(InfosOf(done) + [r.info]) == CamerasOf(InfosOf(done)) + [r.info.camera]
  {
  }

  /** `stats["cameras"][camera_name] += 1` on a histogram with its keys in insertion order. */
  lemma TallyGrow(cams: seq<string>, c: string)
    ensures var m := Tally(cams);
      Tally(cams + [c]) == m[c := (if c in m then m[c] else 0) + 1]
    ensures var o := FirstAppearances(cams);
      FirstAppearances(cams + [c]) == if c in o then o else o + [c]
  {
    assert (cams + [c])[..|cams|] == cams;
  }

  /** One more resolved file appends its record, raises the counters that apply to it and
      counts its camera. */
  lemma SummarizeAppend(done: seq<Resolution>, r: Resolution)
    ensures var s := Summarize(done);
      var c := r.info.camera;
      Summarize(done + [r]) == FirstPass(
        s.infos + [r.info],
        s.noExif + (if r.noExif then 1 else 0),
        s.noDate + (if r.noDate then 1 else 0),
        s.noCamera + (if r.noCamera then 1 else 0),
        s.cameras[c := (if c in s.cameras then s.cameras[c] else 0) + 1],
        if c in s.cameraOrder then s.cameraOrder else s.cameraOrder + [c])
  {
    CountAppend(done, r, NoExif);
    CountAppend(done, r, NoDate);
    CountAppend(done, r, NoCamera);
    InfosAppend(done, r);
    TallyGrow(CamerasOf(InfosOf(done)), r.info.camera);
  }

  /** The statistics updates of the first-pass loop for one resolved file. */
  method AddFile(pass: FirstPass, r: Resolution, ghost done: seq<Resolution>)
    returns (next: FirstPass)
    requires pass == Summarize(done)
    ensures next == Summarize(done + [r])
  {
    SummarizeAppend(done, r);
    var camera := r.info.camera;
    var cameras := pass.cameras;
    var cameraOrder := pass.cameraOrder;
    cameras := cameras[camera := (if camera in cameras then cameras[camera] else 0) + 1];
    if camera !in cameraOrder {
      cameraOrder := cameraOrder + [camera];
    }
    next := FirstPass(pass.infos + [r.info],
                      pass.noExif + (if r.noExif then 1 else 0),
                      pass.noDate + (if r.noDate then 1 else 0),
                      pass.noCamera + (if r.noCamera then 1 else 0),
                      cameras, cameraOrder);
  }

  /** The first-pass loop of `organize_photos` over the walk of the source tree. */
  method CollectFileInfo(sources: seq<SourceFile>, extensions: set<string>,
                         parse: string -> Option<DateTime>, interactive: bool, monthFormat: string)
    returns (pass: FirstPass)
    ensures pass == FirstPassOf(sources, extensions, parse, interactive, monthFormat)
  {
    ghost var done: seq<Resolution> := [];
    NoneCounted(done, NoExif);
    NoneCounted(done, NoDate);
    NoneCounted(done, NoCamera);
    pass := FirstPass([], 0, 0, 0, map[], []);
    for k := 0 to |sources|
      invariant done == Resolutions(Accepted(sources[..k], extensions), parse, interactive, monthFormat)
      invariant pass == Summarize(done)
    {
      FirstPassStep(sources, extensions, k, parse, interactive, monthFormat);
      var f := sources[k];
      if Extension(f.path.name) !in extensions {
        continue;
      }
      var r := ResolveFile(f, parse, interactive, monthFormat);
      pass := AddFile(pass, r, done);
      done := done + [r];
    }
    assert sources[..|sources|] == sources;
  }

  /** The records of the first pass are the kept files, in walk order, each resolved alone. */
  lemma FirstPassRecords(sources: seq<SourceFile>, extensions: set<string>,
                         parse: string -> Option<DateTime>, interactive: bool, monthFormat: string)
    ensures var infos := FirstPassOf(sources, extensions, parse, interactive, monthFormat).infos;
      var accepted := Accepted(sources, extensions);
      && |infos| == |accepted|
      && (forall i :: 0 <= i < |accepted| ==>
            infos[i] == Resolve(accepted[i], parse, interactive, monthFormat).info)
      && (forall i :: 0 <= i < |accepted| ==> infos[i].path == accepted[i].path)
  {
    var accepted := Accepted(sources, extensions);
    var rs := Resolutions(accepted, parse, interactive, monthFormat);
    forall i | 0 <= i < |accepted|
      ensures InfosOf(rs)[i] == Resolve(accepted[i], parse, interactive, monthFormat).info
    {
      ResolutionsSpec(accepted, parse, interactive, monthFormat, i);
    }
  }

  /** No counter exceeds the number of kept files, the interactive mode counts no missing
      camera, and the histogram counts the files of every camera. */
  lemma FirstPassCounts(sources: seq<SourceFile>, extensions: set<string>,
                        parse: string -> Option<DateTime>, interactive: bool, monthFormat: string)
    ensures var pass := FirstPassOf(sources, extensions, parse, interactive, monthFormat);
      var n := |Accepted(sources, extensions)|;
      && pass.noExif <= n && pass.noDate <= n && pass.noCamera <= n
      && (interactive ==> pass.noCamera == 0)
      && (forall c :: c in pass.cameras <==> c in CamerasOf(pass.infos))
      && (forall c :: c in pass.cameras ==> pass.cameras[c] == multiset(CamerasOf(pass.infos))[c])
  {
    var rs := Resolutions(Accepted(sources, extensions), parse, interactive, monthFormat);
    TallySpec(CamerasOf(InfosOf(rs)));
    CountBound(rs, NoExif);
    CountBound(rs, NoDate);
    CountBound(rs, NoCamera);
    if interactive {
      NoCameraCountInteractive(sources, extensions, parse, monthFormat);
    }
  }

  lemma NoCameraCountInteractive(sources: seq<SourceFile>, extensions: set<string>,
                                 parse: string -> Option<DateTime>, monthFormat: string)
    ensures Count(Resolutions(Accepted(sources, extensions), parse, true, monthFormat), NoCamera) == 0
  {
    var accepted := Accepted(sources, extensions);
    var rs := Resolutions(accepted, parse, true, monthFormat);
    forall i | 0 <= i < |rs|
      ensures !rs[i].noCamera
    {
      ResolutionsSpec(accepted, parse, true, monthFormat, i);
      MissingCounters(accepted[i], parse, true, monthFormat);
    }
    NoneCounted(rs, NoCamera);
  }

  lemma NoneCounted(rs: seq<Resolution>, c: Counter)
    requires forall i :: 0 <= i < |rs| ==> !Counts(rs[i], c)
    ensures Count(rs, c) == 0
  {
    assert (set i | 0 <= i < |rs| && Counts(rs[i], c)) == {};
  }

  // ---------------------------------------------------------------------------------------
  // Second pass
  // ---------------------------------------------------------------------------------------

  /** Where the grouping wants one file of a group: `folder_path / path.name`. */
  function TargetFor(info: FileInfo, key: GroupKey, needsSeparation: bool, dest: seq<string>,
                     scheme: string): Path
  {
    ChildOf(FolderFor(BaseFolder(dest, scheme, key), needsSeparation, info.category), info.path.name)
  }

  /** The jobs of one group, in the group's order. */
  function GroupJobs(files: seq<FileInfo>, key: GroupKey, dest: seq<string>, scheme: string,
                     separate: bool): (r: seq<Job>)
    ensures |r| == |files|
  {
    JobsWith(files, key, NeedsSeparation(separate, files), dest, scheme)
  }

  /** The jobs of one group once its separation is decided. */
  function JobsWith(files: seq<FileInfo>, key: GroupKey, needsSeparation: bool,
                    dest: seq<string>, scheme: string): (r: seq<Job>)
    ensures |r| == |files|
  {
    seq(|files|, i requires 0 <= i < |files| =>
      Job(files[i].path, TargetFor(files[i], key, needsSeparation, dest, scheme)))
  }

  /** The jobs of the groups listed in `keys`, one group after the other. */
  function AllJobs(infos: seq<FileInfo>, keys: seq<GroupKey>, dest: seq<string>, scheme: string,
                   separate: bool): seq<Job>
    decreases |keys|
  {
    if |keys| == 0 then []
    else
      var key := keys[|keys| - 1];
      AllJobs(infos, keys[..|keys| - 1], dest, scheme, separate)
        + GroupJobs(Members(infos, key), key, dest, scheme, separate)
  }

  /** The jobs of the second pass: every group, in first-seen order. */
  function JobsOf(infos: seq<FileInfo>, dest: seq<string>, opts: Options): seq<Job> {
    AllJobs(infos, GroupOrder(infos), dest, opts.scheme, opts.separate)
  }

  /** The sources of the jobs are the files of the groups, one after the other. */
  lemma {:induction false} AllJobsSources(infos: seq<FileInfo>, keys: seq<GroupKey>,
                                          dest: seq<string>, scheme: string, separate: bool)
    ensures Sources(AllJobs(infos, keys, dest, scheme, separate)) == PathsOf(Flatten(infos, keys))
    decreases |keys|
  {
    if |keys| > 0 {
      var init := keys[..|keys| - 1];
      var key := keys[|keys| - 1];
      AllJobsSources(infos, init, dest, scheme, separate);
      var a := AllJobs(infos, init, dest, scheme, separate);
      var m := Members(infos, key);
      var g := GroupJobs(m, key, dest, scheme, separate);
      assert AllJobs(infos, keys, dest, scheme, separate) == a + g;
      assert Flatten(infos, keys) == Flatten(infos, init) + m;
      SourcesConcat(a, g);
      PathsOfConcat(Flatten(infos, init), m);
      GroupJobsSources(m, key, dest, scheme, separate);
    }
  }

  lemma SourcesConcat(a: seq<Job>, b: seq<Job>)
    ensures Sources(a + b) == Sources(a) + Sources(b)
  {
  }

  /** The jobs of a group move the group's files. */
  lemma GroupJobsSources(files: seq<FileInfo>, key: GroupKey, dest: seq<string>, scheme: string,
                         separate: bool)
    ensures Sources(GroupJobs(files, key, dest, scheme, separate)) == PathsOf(files)
  {
  }

  /** Every job moves a file of a listed group to the place the scheme and the separation rule
      give it. */
  lemma {:induction false} AllJobsTargets(infos: seq<FileInfo>, keys: seq<GroupKey>,
                                          dest: seq<string>, scheme: string, separate: bool,
                                          j: nat)
    requires j < |AllJobs(infos, keys, dest, scheme, separate)|
    ensures var job := AllJobs(infos, keys, dest, scheme, separate)[j];
      exists key, info :: key in keys && info in Members(infos, key) && job.source == info.path
        && job.target == TargetFor(info, key, NeedsSeparation(separate, Members(infos, key)),
                                   dest, scheme)
    decreases |keys|
  {
    var init := keys[..|keys| - 1];
    var key := keys[|keys| - 1];
    var a := AllJobs(infos, init, dest, scheme, separate);
    var m := Members(infos, key);
    if j < |a| {
      AllJobsTargets(infos, init, dest, scheme, separate, j);
      var job := a[j];
      var key', info :| key' in init && info in Members(infos, key') && job.source == info.path
        && job.target == TargetFor(info, key', NeedsSeparation(separate, Members(infos, key')),
                                   dest, scheme);
      assert key' in keys;
    } else {
      var i := j - |a|;
      assert m[i] in m;
    }
  }

  /** A folder at or below the destination. */
  predicate Below(folder: seq<string>, dest: seq<string>) {
    |dest| <= |folder| && folder[..|dest|] == dest
  }

  /** Every folder the grouping chooses lies below the destination. */
  lemma TargetForBelow(info: FileInfo, key: GroupKey, needsSeparation: bool, dest: seq<string>,
                       scheme: string)
    ensures Below(TargetFor(info, key, needsSeparation, dest, scheme).folder, dest)
  {
    FolderLayout(dest, scheme, key, needsSeparation, info.category);
    var base := BaseFolder(dest, scheme, key);
    var folder := FolderFor(base, needsSeparation, info.category);
    assert folder[..|dest|] == base[..|dest|];
  }

  /** The body of the second-pass loop for one file: its folder, a unique target there, the
      checksum of its source under the target's path relative to the destination, and the
      copy or move. The jobs placed before it are `done`, starting from the paths `files0`. */
  method PlaceFile(fs: FileSystem, info: FileInfo, key: GroupKey, needsSeparation: bool,
                   dest: seq<string>, scheme: string, move: bool, checksum: Path -> string,
                   log0: map<string, string>, ghost files0: set<Path>, ghost done: seq<Job>,
                   ghost job: Job)
    returns (log: map<string, string>)
    modifies fs`files
    requires job == Job(info.path, TargetFor(info, key, needsSeparation, dest, scheme))
    requires fs.files == Place(files0, done, move, checksum, dest).files
    requires log0 == Place(files0, done, move, checksum, dest).log
    ensures var p := Place(files0, done + [job], move, checksum, dest);
      fs.files == p.files && log == p.log
  {
    var base := BaseFolder(dest, scheme, key);
    var folder := FolderFor(base, needsSeparation, info.category);
    var wanted := ChildOf(folder, info.path.name);
    TargetForBelow(info, key, needsSeparation, dest, scheme);
    var target := fs.GetUniqueTarget(wanted);
    assert RelativeTo(target, dest).Some? by {
      assert target.folder == folder;
    }
    var sum := checksum(info.path);
    log := log0;
    if sum != "" {
      var rel := RelativeTo(target, dest).value;
      log := log[rel := sum];
    }
    assert log == Record(log0, target, dest, sum);
    fs.Transfer(info.path, target, move);
    PlaceAppend(files0, done, job, move, checksum, dest);
  }

  /** The inner loop of the second pass for one group. */
  method PlaceGroup(fs: FileSystem, files: seq<FileInfo>, key: GroupKey, dest: seq<string>,
                    opts: Options, move: bool, checksum: Path -> string, log0: map<string, string>,
                    ghost files0: set<Path>, ghost done: seq<Job>)
    returns (log: map<string, string>)
    modifies fs`files
    requires fs.files == Place(files0, done, move, checksum, dest).files
    requires log0 == Place(files0, done, move, checksum, dest).log
    ensures var p := Place(files0, done + GroupJobs(files, key, dest, opts.scheme, opts.separate),
                           move, checksum, dest);
      fs.files == p.files && log == p.log
  {
    var needsSeparation := NeedsSeparation(opts.separate, files);
    ghost var jobs := JobsWith(files, key, needsSeparation, dest, opts.scheme);
    ghost var placed := done;
    log := log0;
    assert done + jobs[..0] == done;
    for k := 0 to |files|
      invariant placed == done + jobs[..k]
      invariant fs.files == Place(files0, placed, move, checksum, dest).files
      invariant log == Place(files0, placed, move, checksum, dest).log
    {
      PrefixSnoc(done, jobs, k);
      log := PlaceFile(fs, files[k], key, needsSeparation, dest, opts.scheme, move, checksum, log,
                       files0, placed, jobs[k]);
      placed := placed + [jobs[k]];
    }
    assert jobs[..|files|] == jobs;
  }

  /** The outer loop of the second pass over the groups in key order. */
  method PlaceAll(fs: FileSystem, infos: seq<FileInfo>, order: seq<GroupKey>,
                  groups: map<GroupKey, seq<FileInfo>>, dest: seq<string>, opts: Options,
                  move: bool, checksum: Path -> string)
    returns (processed: nat, log: map<string, string>)
    modifies fs`files
    requires forall key :: key in order ==> key in groups && groups[key] == Members(infos, key)
    ensures var jobs := AllJobs(infos, order, dest, opts.scheme, opts.separate);
      var p := Place(old(fs.files), jobs, move, checksum, dest);
      && fs.files == p.files && log == p.log && processed == |jobs|
  {
    ghost var files0 := fs.files;
    ghost var done: seq<Job> := [];
    processed := 0;
    log := map[];
    for g := 0 to |order|
      invariant done == AllJobs(infos, order[..g], dest, opts.scheme, opts.separate)
      invariant fs.files == Place(files0, done, move, checksum, dest).files
      invariant log == Place(files0, done, move, checksum, dest).log
      invariant processed == |done|
    {
      var key := order[g];
      var files := groups[key];
      log := PlaceGroup(fs, files, key, dest, opts, move, checksum, log, files0, done);
      processed := processed + |files|;
      assert order[..g + 1][..g] == order[..g];
      done := done + GroupJobs(files, key, dest, opts.scheme, opts.separate);
    }
    assert order[..|order|] == order;
  }

  /** Grouping and the second pass: every file is copied or moved, group after group. */
  method SecondPass(fs: FileSystem, infos: seq<FileInfo>, dest: seq<string>, opts: Options,
                    move: bool, checksum: Path -> string)
    returns (processed: nat, log: map<string, string>)
    modifies fs`files
    ensures var p := Place(old(fs.files), JobsOf(infos, dest, opts), move, checksum, dest);
      && fs.files == p.files && log == p.log && processed == |JobsOf(infos, dest, opts)|
  {
    var order, groups := GroupFiles(infos);
    processed, log := PlaceAll(fs, infos, order, groups, dest, opts, move, checksum);
  }

  // ---------------------------------------------------------------------------------------
  // Properties of the second pass
  // ---------------------------------------------------------------------------------------

  /** Every file is processed exactly once: the sources of the jobs are the files' paths,
      rearranged by group. */
  lemma JobsPermutation(infos: seq<FileInfo>, dest: seq<string>, opts: Options)
    ensures multiset(Sources(JobsOf(infos, dest, opts))) == multiset(PathsOf(infos))
    ensures |JobsOf(infos, dest, opts)| == |infos|
  {
    var order := GroupOrder(infos);
    AllJobsSources(infos, order, dest, opts.scheme, opts.separate);
    GroupsPartition(infos);
    PathsPermutation(Flatten(infos, order), infos);
    assert |multiset(Sources(JobsOf(infos, dest, opts)))| == |multiset(PathsOf(infos))|;
  }

  lemma {:induction false} PathsPermutation(a: seq<FileInfo>, b: seq<FileInfo>)
    requires multiset(a) == multiset(b)
    ensures multiset(PathsOf(a)) == multiset(PathsOf(b))
    decreases |a|
  {
    if |a| == 0 {
      assert |b| == |multiset(b)|;
    } else {
      var x := a[|a| - 1];
      var a' := a[..|a| - 1];
      var k := MatchLast(a, b);
      var b' := b[..k] + b[k + 1..];
      PathsPermutation(a', b');
      assert a == a' + [x];
      PathsOfConcat(a', [x]);
      assert PathsOf([x]) == [x.path];
      PathsRemoveAt(b, k);
      SnocPermutation(PathsOf(a'), PathsOf(b), PathsOf(b'), k);
    }
  }

  lemma PathsOfConcat(a: seq<FileInfo>, b: seq<FileInfo>)
    ensures PathsOf(a + b) == PathsOf(a) + PathsOf(b)
  {
  }

  /** Removing the file at `k` removes its path once. */
  lemma PathsRemoveAt(b: seq<FileInfo>, k: nat)
    requires k < |b|
    ensures multiset(PathsOf(b[..k] + b[k + 1..])) == multiset(PathsOf(b)) - multiset{b[k].path}
  {
    var ps := PathsOf(b);
    assert PathsOf(b[..k] + b[k + 1..]) == ps[..k] + ps[k + 1..];
    RemoveAt(ps, k);
  }

  /** Every job's target folder lies below the destination, so each placed file has a path
      relative to it. */
  lemma JobsBelowDest(files: set<Path>, infos: seq<FileInfo>, dest: seq<string>, opts: Options,
                      move: bool, checksum: Path -> string, j: nat)
    requires j < |JobsOf(infos, dest, opts)|
    ensures var p := Place(files, JobsOf(infos, dest, opts), move, checksum, dest);
      Below(p.targets[j].folder, dest) && RelativeTo(p.targets[j], dest).Some?
  {
    var jobs := JobsOf(infos, dest, opts);
    AllJobsTargets(infos, GroupOrder(infos), dest, opts.scheme, opts.separate, j);
    var key, info :| key in GroupOrder(infos) && info in Members(infos, key)
      && jobs[j].target == TargetFor(info, key, NeedsSeparation(opts.separate, Members(infos, key)),
                                     dest, opts.scheme);
    TargetForBelow(info, key, NeedsSeparation(opts.separate, Members(infos, key)), dest, opts.scheme);
    PlacedFolders(files, jobs, move, checksum, dest);
  }

  /** No two files end up at the same path, and every placed file exists afterwards. A copy
      never overwrites an existing path. A move needs the files to be distinct existing
      paths, which a walk of a directory tree gives. */
  lemma DistinctDestinations(files: set<Path>, infos: seq<FileInfo>, dest: seq<string>,
                             opts: Options, move: bool, checksum: Path -> string)
    requires move ==> Distinct(PathsOf(infos)) && forall i :: 0 <= i < |infos| ==> infos[i].path in files
    ensures var p := Place(files, JobsOf(infos, dest, opts), move, checksum, dest);
      && |p.targets| == |infos|
      && Distinct(p.targets)
      && (forall i :: 0 <= i < |infos| ==> p.targets[i] in p.files)
      && (!move ==> forall i :: 0 <= i < |infos| ==> p.targets[i] !in files)
  {
    var jobs := JobsOf(infos, dest, opts);
    JobsPermutation(infos, dest, opts);
    if move {
      DistinctPermutation(PathsOf(infos), Sources(jobs));
      forall k | 0 <= k < |jobs|
        ensures jobs[k].source in files
      {
        assert Sources(jobs)[k] in multiset(PathsOf(infos));
      }
    }
    PlacedTargetsDistinct(files, jobs, move, checksum, dest);
  }

  /** The checksum log records every placed file that has a checksum, under its path
      relative to the destination, and nothing else. */
  lemma ChecksumLogComplete(files: set<Path>, infos: seq<FileInfo>, dest: seq<string>,
                            opts: Options, move: bool, checksum: Path -> string)
    ensures var jobs := JobsOf(infos, dest, opts);
      var p := Place(files, jobs, move, checksum, dest);
      && (forall i :: 0 <= i < |jobs| && checksum(jobs[i].source) != "" ==>
            RelativeTo(p.targets[i], dest).Some? && RelativeTo(p.targets[i], dest).value in p.log)
      && (forall key :: key in p.log ==> p.log[key] != "")
      && (forall key :: key in p.log ==>
            exists i :: 0 <= i < |jobs| && RelativeTo(p.targets[i], dest) == Some(key)
              && p.log[key] == checksum(jobs[i].source))
  {
    var jobs := JobsOf(infos, dest, opts);
    PlacedLog(files, jobs, move, checksum, dest);
    forall i | 0 <= i < |jobs|
      ensures RelativeTo(Place(files, jobs, move, checksum, dest).targets[i], dest).Some?
    {
      JobsBelowDest(files, infos, dest, opts, move, checksum, i);
    }
  }

  /** At most one pair per RAW file and one per JPG file: twice the pair count is at most the
      number of files. */
  lemma PairsAtMostHalf(infos: seq<FileInfo>)
    ensures 2 * |PairedStems(infos)| <= |infos|
  {
    PairsBounded(infos);
    StemMapsBoundedBy(infos);
  }

  function KindCount(infos: seq<FileInfo>, c: Category): nat
    decreases |infos|
  {
    if |infos| == 0 then 0
    else KindCount(infos[..|infos| - 1], c) + (if infos[|infos| - 1].category == c then 1 else 0)
  }

  lemma {:induction false} StemMapsBoundedBy(infos: seq<FileInfo>)
    ensures |LastByStem(infos, Raw)| <= KindCount(infos, Raw)
    ensures |LastByStem(infos, Jpg)| <= KindCount(infos, Jpg)
    ensures KindCount(infos, Raw) + KindCount(infos, Jpg) <= |infos|
    decreases |infos|
  {
    if |infos| > 0 {
      var init := infos[..|infos| - 1];
      StemMapsBoundedBy(init);
      var x := infos[|infos| - 1];
      if x.category == Raw {
        MapGrowsByOne(LastByStem(init, Raw), LastByStem(infos, Raw), Lower(x.stem));
      } else if x.category == Jpg {
        MapGrowsByOne(LastByStem(init, Jpg), LastByStem(infos, Jpg), Lower(x.stem));
      }
    }
  }

  lemma MapGrowsByOne(a: map<string, FileInfo>, b: map<string, FileInfo>, k: string)
    requires b.Keys <= a.Keys + {k}
    ensures |b| <= |a| + 1
  {
    SubsetCard(b.Keys, a.Keys + {k});
  }

  // ---------------------------------------------------------------------------------------
  // The whole run
  // ---------------------------------------------------------------------------------------

  /** The inputs of one run that come from outside: the walk of the source tree, the
      destination, the mode, the date parser standing for `strptime`, the checksum standing
      for `calculate_checksum` ("" on a read error), the elapsed whole seconds and whether
      writing the checksum log succeeds. */
  datatype Run = Run(sources: seq<SourceFile>, dest: seq<string>, move: bool, interactive: bool,
                     parse: string -> Option<DateTime>, checksum: Path -> string,
                     elapsedSeconds: nat, logWritable: bool)

  /** `stats` after the run, with the report's camera list and duration. */
  datatype Summary = Summary(processed: nat, noDate: nat, noCamera: nat, noExif: nat,
                             rawJpgPairs: nat, cameras: map<string, nat>,
                             cameraList: seq<Report.Entry>, checksumLog: map<string, string>,
                             duration: string)

  function PassOf(run: Run, extensions: set<string>, opts: Options): FirstPass {
    FirstPassOf(run.sources, extensions, run.parse, run.interactive, opts.monthFormat)
  }

  function Outcome(files: set<Path>, run: Run, extensions: set<string>, opts: Options): Placed {
    Place(files, JobsOf(PassOf(run, extensions, opts).infos, run.dest, opts), run.move,
          run.checksum, run.dest)
  }

  /** The statistics and the report of a run over a first pass. */
  function SummaryFrom(pass: FirstPass, files: set<Path>, run: Run, opts: Options): Summary {
    var jobs := JobsOf(pass.infos, run.dest, opts);
    Summary(|jobs|, pass.noDate, pass.noCamera, pass.noExif, |PairedStems(pass.infos)|,
            pass.cameras, Report.CameraList(CamerasOf(pass.infos)),
            Place(files, jobs, run.move, run.checksum, run.dest).log,
            Report.FormatDuration(run.elapsedSeconds))
  }

  function SummaryOf(files: set<Path>, run: Run, extensions: set<string>, opts: Options): Summary {
    SummaryFrom(PassOf(run, extensions, opts), files, run, opts)
  }

  /** The checksum file after the run: written only when the log is not empty. */
  function LedgerAfter(ledger: LedgerFile, log: map<string, string>, writable: bool): LedgerFile {
    if log != map[] then SavedLedger(ledger, log, writable) else ledger
  }

  /** The histogram in key order, as `stats["cameras"].items()`. */
  function Items(cameras: map<string, nat>, order: seq<string>): seq<Report.Entry>
    requires forall c :: c in order ==> c in cameras
  {
    seq(|order|, i requires 0 <= i < |order| => Report.Entry(order[i], cameras[order[i]]))
  }

  /** The histogram the first pass builds lists every camera of its records. */
  lemma ItemsOfPass(rs: seq<Resolution>)
    ensures var pass := Summarize(rs);
      && (forall c :: c in pass.cameraOrder ==> c in pass.cameras)
      && Items(pass.cameras, pass.cameraOrder) == Report.HistogramEntries(CamerasOf(pass.infos))
  {
    var cams := CamerasOf(InfosOf(rs));
    TallySpec(cams);
    FirstAppearancesSpec(cams);
  }

  /** `organize_photos(src_dir, dest_dir, move, interactive, organization_scheme, month_format,
      separate_file_types)` over the file system `fs` and the settings `store`; `srcIsDir` is
      whether the source exists and is a directory. */
  method OrganizePhotos(fs: FileSystem, store: SettingsStore, srcIsDir: bool, run: Run,
                        scheme: Option<string>, monthFormat: Option<string>,
                        separate: Option<bool>)
    returns (r: Result<Summary, string>)
    modifies fs
    ensures var opts := ResolvedOptions(store.file, scheme, monthFormat, separate);
      var placed := Outcome(old(fs.files), run, AllExtensions, opts);
      && (!srcIsDir ==> r.Failure? && fs.files == old(fs.files) && fs.ledger == old(fs.ledger))
      && (srcIsDir ==> r == Success(SummaryOf(old(fs.files), run, AllExtensions, opts)))
      && (srcIsDir ==> fs.files == placed.files)
      && (srcIsDir ==> fs.ledger == LedgerAfter(old(fs.ledger), placed.log, run.logWritable))
  {
    var opts := LoadOptions(store, scheme, monthFormat, separate);
    if !srcIsDir {
      return Failure("Source directory does not exist or is not a directory");
    }
    var allExtensions := PhotoExtensions + RawExtensions + VideoExtensions;
    var pass := CollectFileInfo(run.sources, allExtensions, run.parse, run.interactive,
                                opts.monthFormat);
    var summary := PlaceAndReport(fs, pass, run, opts,
                                  Resolutions(Accepted(run.sources, allExtensions), run.parse,
                                              run.interactive, opts.monthFormat));
    r := Success(summary);
  }

  /** The rest of `organize_photos` after the first pass: the pair count, grouping and
      placement, the checksum file and the report's figures. */
  method PlaceAndReport(fs: FileSystem, pass: FirstPass, run: Run, opts: Options,
                        ghost rs: seq<Resolution>)
    returns (s: Summary)
    modifies fs
    requires pass == Summarize(rs)
    ensures s == SummaryFrom(pass, old(fs.files), run, opts)
    ensures var placed := Place(old(fs.files), JobsOf(pass.infos, run.dest, opts), run.move,
                                run.checksum, run.dest);
      && fs.files == placed.files
      && fs.ledger == LedgerAfter(old(fs.ledger), placed.log, run.logWritable)
  {
    var pairs := CountRawJpgPairs(pass.infos);
    var processed, log := SecondPass(fs, pass.infos, run.dest, opts, run.move, run.checksum);
    if log != map[] {
      fs.SaveChecksumLog(log, run.logWritable);
    }
    var duration := Report.FormatDuration(run.elapsedSeconds);
    ItemsOfPass(rs);
    var cameraList := Report.SortByCountDesc(Items(pass.cameras, pass.cameraOrder));
    s := Summary(processed, pass.noDate, pass.noCamera, pass.noExif, pairs, pass.cameras,
                 cameraList, log, duration);
  }

  // ---------------------------------------------------------------------------------------
  // Properties of the whole run
  // ---------------------------------------------------------------------------------------

  /** The report's figures: every kept file is processed once; the counters and twice the
      pair count are at most the files processed; the camera list holds every camera once
      with its count, highest first. */
  lemma SummaryBounds(files: set<Path>, run: Run, extensions: set<string>, opts: Options)
    ensures var s := SummaryOf(files, run, extensions, opts);
      var cams := CamerasOf(PassOf(run, extensions, opts).infos);
      && s.processed == |Accepted(run.sources, extensions)|
      && s.noDate <= s.processed && s.noCamera <= s.processed && s.noExif <= s.processed
      && 2 * s.rawJpgPairs <= s.processed
      && (run.interactive ==> s.noCamera == 0)
      && Report.Descending(s.cameraList)
      && (forall e :: e in s.cameraList ==> e.camera in cams && e.count == multiset(cams)[e.camera])
      && (forall c :: c in cams ==> Report.Entry(c, multiset(cams)[c]) in s.cameraList)
  {
    var infos := PassOf(run, extensions, opts).infos;
    FirstPassCounts(run.sources, extensions, run.parse, run.interactive, opts.monthFormat);
    assert |infos| == |Accepted(run.sources, extensions)|;
    JobsPermutation(infos, run.dest, opts);
    PairsAtMostHalf(infos);
    Report.CameraListSpec(CamerasOf(infos));
  }

  /** Over a whole run, no two kept files end up at the same path, and every one exists
      afterwards; a move needs the kept files to be distinct existing paths. */
  lemma RunDestinationsDistinct(files: set<Path>, run: Run, extensions: set<string>, opts: Options)
    requires var accepted := Accepted(run.sources, extensions);
      run.move ==> forall i, j :: 0 <= i < j < |accepted| ==> accepted[i].path != accepted[j].path
    requires run.move ==> forall f :: f in Accepted(run.sources, extensions) ==> f.path in files
    ensures var p := Outcome(files, run, extensions, opts);
      && |p.targets| == |Accepted(run.sources, extensions)|
      && Distinct(p.targets)
      && (forall t :: t in p.targets ==> t in p.files)
  {
    var infos := PassOf(run, extensions, opts).infos;
    var accepted := Accepted(run.sources, extensions);
    FirstPassRecords(run.sources, extensions, run.parse, run.interactive, opts.monthFormat);
    assert run.move ==> Distinct(PathsOf(infos));
    forall i | 0 <= i < |infos|
      ensures run.move ==> infos[i].path in files
    {
      assert accepted[i] in accepted;
    }
    DistinctDestinations(files, infos, run.dest, opts, run.move, run.checksum);
  }
}
