/** Collision-free naming (`get_unique_target`), the copy or move of each file, and the
    checksum ledger (`save_checksum_log`) (chronicle/organize_photos.py). */
module Placement {
  import opened Wrappers
  import opened Text
  import opened Numeric
  import opened Paths
  import opened Collections

  /** `target.with_name(f"{stem}_{i}{suffix}")` */
  function Candidate(target: Path, i: nat): Path {
    Path(target.folder, Stem(target.name) + "_" + Decimal(i) + Suffix(target.name))
  }

  /** Different counters give different candidates. */
  lemma CandidateInjective(target: Path, i: nat, j: nat)
    requires Candidate(target, i) == Candidate(target, j)
    ensures i == j
  {
    var a := Stem(target.name) + "_";
    var x := Suffix(target.name);
    var ni := Candidate(target, i).name;
    assert ni == a + Decimal(i) + x;
    assert ni == a + Decimal(j) + x;
    assert |Decimal(i)| == |Decimal(j)|;
    assert Decimal(i) == ni[|a|..|ni| - |x|];
    assert Decimal(j) == ni[|a|..|ni| - |x|];
    DecimalInjective(i, j);
  }

  /** The candidates with counters 1 to i - 1. */
  function CandidatesBelow(target: Path, i: nat): set<Path> {
    set j: nat | 1 <= j < i :: Candidate(target, j)
  }

  lemma CandidatesBelowGrow(files: set<Path>, target: Path, i: nat)
    requires i >= 1 && Candidate(target, i) in files
    ensures files - CandidatesBelow(target, i + 1) < files - CandidatesBelow(target, i)
  {
    assert CandidatesBelow(target, i + 1) == CandidatesBelow(target, i) + {Candidate(target, i)};
    if Candidate(target, i) in CandidatesBelow(target, i) {
      var j: nat :| 1 <= j < i && Candidate(target, j) == Candidate(target, i);
      CandidateInjective(target, i, j);
    }
    assert Candidate(target, i) in files - CandidatesBelow(target, i);
  }

  /** The first counter from `i` on whose candidate is free. */
  function FreeIndexFrom(files: set<Path>, target: Path, i: nat): (n: nat)
    requires i >= 1
    ensures n >= i && Candidate(target, n) !in files
    ensures forall j :: i <= j < n ==> Candidate(target, j) in files
    decreases files - CandidatesBelow(target, i)
  {
    if Candidate(target, i) !in files then i
    else
      CandidatesBelowGrow(files, target, i);
      FreeIndexFrom(files, target, i + 1)
  }

  /** `get_unique_target(target)` over the set of paths that exist: the target itself when it
      is free, otherwise the candidate in the same folder with the least free counter. */
  function UniqueTarget(files: set<Path>, target: Path): (r: Path)
    ensures r !in files
    ensures target !in files ==> r == target
    ensures target in files ==>
      exists i :: i >= 1 && r == Candidate(target, i)
        && forall j :: 1 <= j < i ==> Candidate(target, j) in files
    ensures r.folder == target.folder
  {
    if target !in files then target else Candidate(target, FreeIndexFrom(files, target, 1))
  }

  /** What a `.checksums.json` in the destination can hold when `save_checksum_log` reads it. */
  datatype LedgerFile =
    | NoLedger                                // the file does not exist
    | Unreadable                              // opening or decoding it raises
    | NotAnObject                             // valid JSON that is not an object
    | Ledger(entries: map<string, string>)

  /** The map `save_checksum_log` writes, or `None` when it writes nothing: an object that is
      not a JSON object makes `update` raise, which the outer `except` swallows. */
  function MergedLedger(file: LedgerFile, log: map<string, string>): Option<map<string, string>> {
    match file
    case NoLedger => Some(log)
    case Unreadable => Some(log)
    case NotAnObject => None
    case Ledger(entries) => Some(entries + log)
  }

  /** The merge of `existing_log.update(checksum_log)`: new keys take the new value, old keys
      not in the new log keep theirs, and an unreadable old ledger leaves only the new log. */
  lemma MergedLedgerSpec(file: LedgerFile, log: map<string, string>)
    ensures file.Ledger? ==>
      var r := MergedLedger(file, log).value;
      && r.Keys == file.entries.Keys + log.Keys
      && (forall key :: key in log ==> r[key] == log[key])
      && (forall key :: key in file.entries && key !in log ==> r[key] == file.entries[key])
    ensures file == NoLedger || file == Unreadable ==> MergedLedger(file, log) == Some(log)
    ensures MergedLedger(file, log).None? <==> file == NotAnObject
  {
  }

  /** The ledger after `save_checksum_log`: the merged map when there is one and the write
      succeeds, the old file otherwise. */
  function SavedLedger(file: LedgerFile, log: map<string, string>, writeOk: bool): LedgerFile {
    var merged := MergedLedger(file, log);
    if merged.Some? && writeOk then Ledger(merged.value) else file
  }

  /** The effect of `shutil.move` or `shutil.copy2` on the set of existing paths. */
  function Transferred(files: set<Path>, source: Path, target: Path, move: bool): set<Path> {
    if move then files - {source} + {target} else files + {target}
  }

  /** The file system as the organizer sees it: the paths that exist, and the checksum ledger
      in the destination folder. */
  class FileSystem {
    var files: set<Path>
    var ledger: LedgerFile

    constructor (files: set<Path>, ledger: LedgerFile)
      ensures this.files == files && this.ledger == ledger
    {
      this.files := files;
      this.ledger := ledger;
    }

    /** `get_unique_target(target)`, probing counters 1, 2, ... until a name is free. */
    method GetUniqueTarget(target: Path) returns (r: Path)
      ensures r == UniqueTarget(files, target)
    {
      if target !in files {
        return target;
      }
      var stem, suffix := Stem(target.name), Suffix(target.name);
      var i: nat := 1;
      while true
        invariant i >= 1
        invariant FreeIndexFrom(files, target, i) == FreeIndexFrom(files, target, 1)
        decreases files - CandidatesBelow(target, i)
      {
        var candidate := Path(target.folder, stem + "_" + Decimal(i) + suffix);
        assert candidate == Candidate(target, i);
        if candidate !in files {
          return candidate;
        }
        CandidatesBelowGrow(files, target, i);
        i := i + 1;
      }
    }

    /** `shutil.move(source, target)` or `shutil.copy2(source, target)`. */
    method Transfer(source: Path, target: Path, move: bool)
      modifies this`files
      ensures files == Transferred(old(files), source, target, move)
    {
      if move {
        files := files - {source} + {target};
      } else {
        files := files + {target};
      }
    }

    /** `save_checksum_log(dest_dir, checksum_log)`; `writeOk` is whether writing the file
        succeeds. */
    method SaveChecksumLog(log: map<string, string>, writeOk: bool)
      modifies this`ledger
      ensures ledger == SavedLedger(old(ledger), log, writeOk)
    {
      var existingLog: map<string, string> := map[];
      var canUpdate := true;
      match ledger {
        case NoLedger =>
        case Unreadable =>
        case NotAnObject => canUpdate := false;
        case Ledger(entries) => existingLog := entries;
      }
      if canUpdate {
        existingLog := existingLog + log;
        if writeOk {
          ledger := Ledger(existingLog);
        }
      }
    }
  }

  /** One file of the second pass: where it is, and where the grouping wants it. */
  datatype Job = Job(source: Path, target: Path)

  /** The state after a run of jobs: the target each job received, the paths that exist, and
      the checksum log collected on the way. */
  datatype Placed = Placed(targets: seq<Path>, files: set<Path>, log: map<string, string>)

  /** The checksum-log step for one file: a non-empty checksum of the source is recorded under
      the target's path relative to the destination. */
  function Record(log: map<string, string>, target: Path, dest: seq<string>, checksum: string)
    : map<string, string>
  {
    var rel := RelativeTo(target, dest);
    if checksum != "" && rel.Some? then log[rel.value := checksum] else log
  }

  /** The second-pass loop over a run of jobs: a unique target for each, the checksum of its
      source, and the copy or move. `checksum` stands for `calculate_checksum`, which gives ""
      when the file cannot be read. */
  function Place(files: set<Path>, jobs: seq<Job>, move: bool, checksum: Path -> string,
                 dest: seq<string>): (r: Placed)
    ensures |r.targets| == |jobs|
    decreases |jobs|
  {
    if |jobs| == 0 then Placed([], files, map[])
    else
      var before := Place(files, jobs[..|jobs| - 1], move, checksum, dest);
      var job := jobs[|jobs| - 1];
      var target := UniqueTarget(before.files, job.target);
      Placed(before.targets + [target], Transferred(before.files, job.source, target, move),
             Record(before.log, target, dest, checksum(job.source)))
  }

  /** One more job: its unique target among the paths left by the jobs before it. */
  lemma PlaceAppend(files: set<Path>, jobs: seq<Job>, job: Job, move: bool,
                    checksum: Path -> string, dest: seq<string>)
    ensures var before := Place(files, jobs, move, checksum, dest);
      var target := UniqueTarget(before.files, job.target);
      Place(files, jobs + [job], move, checksum, dest)
        == Placed(before.targets + [target], Transferred(before.files, job.source, target, move),
                  Record(before.log, target, dest, checksum(job.source)))
  {
    assert (jobs + [job])[..|jobs|] == jobs;
  }

  function Sources(jobs: seq<Job>): (r: seq<Path>)
    ensures |r| == |jobs| && forall k :: 0 <= k < |jobs| ==> r[k] == jobs[k].source
  {
    seq(|jobs|, k requires 0 <= k < |jobs| => jobs[k].source)
  }

  /** The first `n` jobs are the first `n - 1` and one more. */
  lemma PlaceSnoc(files: set<Path>, jobs: seq<Job>, n: nat, move: bool, checksum: Path -> string,
                  dest: seq<string>)
    requires 0 < n <= |jobs|
    ensures var q := Place(files, jobs[..n - 1], move, checksum, dest);
      var p := Place(files, jobs[..n], move, checksum, dest);
      var t := UniqueTarget(q.files, jobs[n - 1].target);
      && p.targets == q.targets + [t]
      && p.files == Transferred(q.files, jobs[n - 1].source, t, move)
  {
    assert jobs[..n][..n - 1] == jobs[..n - 1];
  }

  /** A copy gives distinct new paths as targets, and afterwards the paths that exist are the
      old ones and the targets. */
  lemma {:induction false} CopyPlace(files: set<Path>, jobs: seq<Job>, checksum: Path -> string,
                                     dest: seq<string>)
    ensures var p := Place(files, jobs, false, checksum, dest);
      && Distinct(p.targets)
      && p.files == files + (set t | t in p.targets)
      && (forall t :: t in p.targets ==> t !in files)
    decreases |jobs|
  {
    if |jobs| > 0 {
      var init := jobs[..|jobs| - 1];
      CopyPlace(files, init, checksum, dest);
      var q := Place(files, init, false, checksum, dest);
      var t := UniqueTarget(q.files, jobs[|jobs| - 1].target);
      var p := Place(files, jobs, false, checksum, dest);
      assert p.targets == q.targets + [t];
      assert (set u | u in p.targets) == (set u | u in q.targets) + {t};
    }
  }

  /** What holds after the first `n` jobs of a move whose sources are distinct existing paths:
      the targets are distinct, still exist, and differ from every
      source still to be moved, which all still exist. */
  lemma {:induction false} MovePrefix(files: set<Path>, jobs: seq<Job>, n: nat,
                                      checksum: Path -> string, dest: seq<string>)
    requires n <= |jobs|
    requires Distinct(Sources(jobs)) && forall k :: 0 <= k < |jobs| ==> jobs[k].source in files
    ensures var p := Place(files, jobs[..n], true, checksum, dest);
      && Distinct(p.targets)
      && (forall i :: 0 <= i < n ==> p.targets[i] in p.files)
      && (forall k :: n <= k < |jobs| ==> jobs[k].source in p.files)
      && (forall i, k :: 0 <= i < n <= k < |jobs| ==> p.targets[i] != jobs[k].source)
    decreases n
  {
    if n > 0 {
      MovePrefix(files, jobs, n - 1, checksum, dest);
      PlaceSnoc(files, jobs, n, true, checksum, dest);
      var q := Place(files, jobs[..n - 1], true, checksum, dest);
      var p := Place(files, jobs[..n], true, checksum, dest);
      var s := jobs[n - 1].source;
      forall k | n <= k < |jobs|
        ensures jobs[k].source != s
      {
        assert Sources(jobs)[k] != Sources(jobs)[n - 1];
      }
    }
  }

  /** Each file lands in the folder the grouping chose for it. */
  lemma {:induction false} PlacedFolders(files: set<Path>, jobs: seq<Job>, move: bool,
                                         checksum: Path -> string, dest: seq<string>)
    ensures var p := Place(files, jobs, move, checksum, dest);
      forall i :: 0 <= i < |jobs| ==> p.targets[i].folder == jobs[i].target.folder
    decreases |jobs|
  {
    if |jobs| > 0 {
      PlacedFolders(files, jobs[..|jobs| - 1], move, checksum, dest);
    }
  }

  /** No two files of a run receive the same target, and every target exists afterwards. */
  lemma PlacedTargetsDistinct(files: set<Path>, jobs: seq<Job>, move: bool,
                              checksum: Path -> string, dest: seq<string>)
    requires move ==> Distinct(Sources(jobs)) && forall k :: 0 <= k < |jobs| ==> jobs[k].source in files
    ensures var p := Place(files, jobs, move, checksum, dest);
      && Distinct(p.targets)
      && (forall i :: 0 <= i < |jobs| ==> p.targets[i] in p.files)
      && (!move ==> forall i :: 0 <= i < |jobs| ==> p.targets[i] !in files)
  {
    if move {
      MovePrefix(files, jobs, |jobs|, checksum, dest);
    } else {
      CopyPlace(files, jobs, checksum, dest);
      var p := Place(files, jobs, move, checksum, dest);
      assert forall i :: 0 <= i < |jobs| ==> p.targets[i] in p.targets;
    }
    assert jobs[..|jobs|] == jobs;
  }

  /** The checksum log holds only non-empty checksums, each one the checksum of a placed
      file's source under that file's relative target path; every placed file with a non-empty
      checksum and a relative path has an entry. */
  lemma PlacedLog(files: set<Path>, jobs: seq<Job>, move: bool,
                  checksum: Path -> string, dest: seq<string>)
    ensures var p := Place(files, jobs, move, checksum, dest);
      && (forall key :: key in p.log ==> p.log[key] != "")
      && (forall key :: key in p.log ==>
            exists i :: 0 <= i < |jobs| && RelativeTo(p.targets[i], dest) == Some(key)
              && p.log[key] == checksum(jobs[i].source))
      && (forall i :: (0 <= i < |jobs| && checksum(jobs[i].source) != ""
                       && RelativeTo(p.targets[i], dest).Some?)
                  ==> RelativeTo(p.targets[i], dest).value in p.log)
  {
    PlacedLogSound(files, jobs, move, checksum, dest);
    PlacedLogComplete(files, jobs, move, checksum, dest);
  }

  /** Every entry of the log is the checksum of a placed file, under its relative path. */
  lemma {:induction false} PlacedLogSound(files: set<Path>, jobs: seq<Job>, move: bool,
                                          checksum: Path -> string, dest: seq<string>)
    ensures var p := Place(files, jobs, move, checksum, dest);
      forall key :: key in p.log ==>
        && p.log[key] != ""
        && exists i :: 0 <= i < |jobs| && RelativeTo(p.targets[i], dest) == Some(key)
             && p.log[key] == checksum(jobs[i].source)
    decreases |jobs|
  {
    if |jobs| > 0 {
      var init := jobs[..|jobs| - 1];
      PlacedLogSound(files, init, move, checksum, dest);
      var q := Place(files, init, move, checksum, dest);
      var p := Place(files, jobs, move, checksum, dest);
      var last := |jobs| - 1;
      assert jobs == init + [jobs[last]];
      PlaceAppend(files, init, jobs[last], move, checksum, dest);
      var t := p.targets[last];
      var c := checksum(jobs[last].source);
      assert p.log == Record(q.log, t, dest, c);
      forall key | key in p.log
        ensures p.log[key] != ""
        ensures exists i :: 0 <= i < |jobs| && RelativeTo(p.targets[i], dest) == Some(key)
                  && p.log[key] == checksum(jobs[i].source)
      {
        RecordKey(q.log, t, dest, c, key);
        if key !in q.log || p.log[key] != q.log[key] {
          assert RelativeTo(p.targets[last], dest) == Some(key);
        } else {
          var i :| 0 <= i < |init| && RelativeTo(q.targets[i], dest) == Some(key)
            && q.log[key] == checksum(init[i].source);
          assert p.targets[i] == q.targets[i] && jobs[i] == init[i];
        }
      }
    }
  }

  /** An entry after one record is the new checksum under the target's relative path, or an
      entry that was there before. */
  lemma RecordKey(log: map<string, string>, target: Path, dest: seq<string>, c: string, key: string)
    requires key in Record(log, target, dest, c)
    ensures var r := Record(log, target, dest, c);
      (c != "" && RelativeTo(target, dest) == Some(key) && r[key] == c)
        || (key in log && r[key] == log[key])
  {
  }

  /** Every placed file with a checksum and a path relative to the destination is logged. */
  lemma {:induction false} PlacedLogComplete(files: set<Path>, jobs: seq<Job>, move: bool,
                                             checksum: Path -> string, dest: seq<string>)
    ensures var p := Place(files, jobs, move, checksum, dest);
      forall i :: (0 <= i < |jobs| && checksum(jobs[i].source) != ""
                   && RelativeTo(p.targets[i], dest).Some?)
              ==> RelativeTo(p.targets[i], dest).value in p.log
    decreases |jobs|
  {
    if |jobs| > 0 {
      var init := jobs[..|jobs| - 1];
      PlacedLogComplete(files, init, move, checksum, dest);
      var q := Place(files, init, move, checksum, dest);
      var p := Place(files, jobs, move, checksum, dest);
      var last := |jobs| - 1;
      assert q.log.Keys <= p.log.Keys;
      forall i | 0 <= i < |jobs| && checksum(jobs[i].source) != "" && RelativeTo(p.targets[i], dest).Some?
        ensures RelativeTo(p.targets[i], dest).value in p.log
      {
        if i < last {
          assert p.targets[i] == q.targets[i] && jobs[i] == init[i];
        }
      }
    }
  }

}
