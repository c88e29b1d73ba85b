/** File paths as the organizer uses them: a folder (a sequence of segments) and a file name,
    with `pathlib`'s split of the name into stem and suffix. */
module Paths {
  import opened Wrappers
  import opened Text

  datatype Path = Path(folder: seq<string>, name: string)

  /** `name.rfind('.')`, when there is a dot. */
  function LastDot(name: string): (r: Option<nat>)
    ensures r.Some? ==> r.value < |name| && name[r.value] == '.' && '.' !in name[r.value + 1..]
    ensures r.None? ==> '.' !in name
    decreases |name|
  {
    if |name| == 0 then None
    else if name[|name| - 1] == '.' then Some(|name| - 1)
    else
      var r := LastDot(name[..|name| - 1]);
      assert name[..|name| - 1] + [name[|name| - 1]] == name;
      r
  }

  /** Where `pathlib` puts the split between stem and suffix: at the last dot, unless that dot
      opens the name or ends it. */
  function SplitPoint(name: string): (k: nat)
    ensures k <= |name|
  {
    match LastDot(name)
    case Some(i) => if 0 < i < |name| - 1 then i else |name|
    case None => |name|
  }

  /** `Path.suffix` */
  function Suffix(name: string): string {
    name[SplitPoint(name)..]
  }

  /** `Path.stem` */
  function Stem(name: string): string {
    name[..SplitPoint(name)]
  }

  /** The stem and the suffix together are the name; a suffix is empty or a dot followed by
      at least one character, and there is no other dot in it. */
  lemma StemSuffix(name: string)
    ensures Stem(name) + Suffix(name) == name
    ensures var x := Suffix(name);
      x == "" || (|x| >= 2 && x[0] == '.' && '.' !in x[1..])
    ensures Suffix(name) != "" ==> |Stem(name)| > 0
  {
    assert name[..SplitPoint(name)] + name[SplitPoint(name)..] == name;
    match LastDot(name)
    case Some(i) =>
      if 0 < i < |name| - 1 {
        assert Suffix(name)[1..] == name[i + 1..];
      }
    case None =>
  }

  /** The segments `folder / label` adds for a part without a slash: `pathlib` drops an empty
      or `.` segment and keeps any other, `..` included, as written. */
  function Segment(part: string): seq<string> {
    if part == "" || part == "." then [] else [part]
  }

  /** A part `pathlib` keeps as one ordinary segment: not empty, `.` or `..`. */
  predicate PlainSegment(part: string) {
    part != "" && part != "." && part != ".."
  }

  /** `folder / name` */
  function ChildOf(folder: seq<string>, name: string): Path {
    Path(folder, name)
  }

  /** `str(path.relative_to(base))`, for a path below `base`, with `/` between segments. */
  function RelativeTo(p: Path, base: seq<string>): Option<string> {
    if |base| <= |p.folder| && p.folder[..|base|] == base then
      Some(Join("/", p.folder[|base|..] + [p.name]))
    else None
  }

  /** `(base / ... / name).relative_to(base)`: a path is relative to `base` exactly when its
      folder lies below `base`, and splitting the relative text at `/` then gives back the
      segments below `base` and the name, when none holds a `/`. */
  lemma RelativeToChild(base: seq<string>, rest: seq<string>, name: string)
    requires forall k :: 0 <= k < |rest| ==> '/' !in rest[k]
    requires '/' !in name
    ensures var r := RelativeTo(ChildOf(base + rest, name), base);
      r.Some? && SplitOn(r.value, '/') == rest + [name]
  {
    var parts := rest + [name];
    assert (base + rest)[..|base|] == base && (base + rest)[|base|..] == rest;
    assert forall k :: 0 <= k < |parts| ==> '/' !in parts[k] by {
      forall k | 0 <= k < |parts| ensures '/' !in parts[k] {
        if k < |rest| { assert parts[k] == rest[k]; }
      }
    }
    SplitJoin(parts, '/');
  }

  /** `relative_to` succeeds exactly for a path whose folder starts with `base`; otherwise it
      raises, and the result is none. */
  lemma RelativeToBelow(p: Path, base: seq<string>)
    ensures RelativeTo(p, base).Some? <==> exists rest :: p.folder == base + rest
  {
    if RelativeTo(p, base).Some? {
      assert p.folder == base + p.folder[|base|..];
    }
    if exists rest :: p.folder == base + rest {
      var rest :| p.folder == base + rest;
      assert p.folder[..|base|] == base;
    }
  }
}
