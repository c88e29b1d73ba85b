/** The pure parts of the end of `organize_photos` and of `generate_report`: the elapsed-time
    split and the camera list sorted by count (chronicle/organize_photos.py). */
module Report {
  import opened Wrappers
  import opened Text
  import opened Numeric
  import opened Collections

  /** `total_seconds // 3600`, `(total_seconds % 3600) // 60` and `total_seconds % 60`. */
  datatype Duration = Duration(hours: nat, minutes: nat, seconds: nat)

  function DurationParts(totalSeconds: nat): (d: Duration)
    ensures d.minutes < 60 && d.seconds < 60
    ensures d.hours * 3600 + d.minutes * 60 + d.seconds == totalSeconds
  {
    Duration(totalSeconds / 3600, (totalSeconds % 3600) / 60, totalSeconds % 60)
  }

  /** `f"{h:02d}:{m:02d}:{s:02d}"` */
  function FormatDuration(totalSeconds: nat): string {
    var d := DurationParts(totalSeconds);
    FormatNat(d.hours, 2) + ":" + FormatNat(d.minutes, 2) + ":" + FormatNat(d.seconds, 2)
  }

  lemma SplitThree(a: string, b: string, c: string)
    requires AllDigits(a) && AllDigits(b) && AllDigits(c)
    ensures SplitOn(a + ":" + b + ":" + c, ':') == [a, b, c]
  {
    var parts := [a, b, c];
    assert forall k :: 0 <= k < |parts| ==> ':' !in parts[k];
    SplitJoin(parts, ':');
    assert Join([':'], parts[2..]) == c;
    assert Join([':'], parts[1..]) == b + ":" + c;
    assert a + ":" + b + ":" + c == a + ":" + (b + ":" + c);
  }

  lemma TwoDigits(n: nat)
    requires n < 100
    ensures |FormatNat(n, 2)| == 2 && ParseInt(FormatNat(n, 2)) == Some(n)
  {
    assert Pow10(2) == 100 by {
      assert Pow10(1) == 10;
    }
    FormatNatWidth(n, 2);
    ParseFormatNat(n, 2);
  }

  /** Splitting the duration at its colons gives back hours, minutes and seconds; minutes and
      seconds always take exactly two digits. */
  lemma DurationRoundTrip(totalSeconds: nat)
    ensures var d := DurationParts(totalSeconds);
      var fields := SplitOn(FormatDuration(totalSeconds), ':');
      && |fields| == 3
      && ParseInt(fields[0]) == Some(d.hours)
      && ParseInt(fields[1]) == Some(d.minutes)
      && ParseInt(fields[2]) == Some(d.seconds)
      && |fields[1]| == 2 && |fields[2]| == 2
  {
    var d := DurationParts(totalSeconds);
    var hh, mm, ss := FormatNat(d.hours, 2), FormatNat(d.minutes, 2), FormatNat(d.seconds, 2);
    TwoDigits(d.minutes);
    TwoDigits(d.seconds);
    ParseFormatNat(d.hours, 2);
    SplitThree(hh, mm, ss);
  }

  /** One entry of the camera histogram: a camera label and its count. */
  datatype Entry = Entry(camera: string, count: nat)

  /** Insert keeping counts descending, after every entry whose count is at least as large. */
  function Insert(x: Entry, s: seq<Entry>): (r: seq<Entry>)
    ensures |r| == |s| + 1
    decreases |s|
  {
    if |s| == 0 then [x]
    else if s[0].count >= x.count then [s[0]] + Insert(x, s[1..])
    else [x] + s
  }

  /** `sorted(entries, key=lambda x: x[1], reverse=True)`: Python's sort is stable, so equal
      counts keep their order. */
  function SortByCountDesc(s: seq<Entry>): (r: seq<Entry>)
    ensures |r| == |s|
    decreases |s|
  {
    if |s| == 0 then []
    else Insert(s[|s| - 1], SortByCountDesc(s[..|s| - 1]))
  }

  /** Inserting adds exactly the new entry. */
  lemma {:induction false} InsertPermutation(x: Entry, s: seq<Entry>)
    ensures multiset(Insert(x, s)) == multiset(s) + multiset{x}
    decreases |s|
  {
    if |s| > 0 {
      assert s == [s[0]] + s[1..];
      if s[0].count >= x.count {
        InsertPermutation(x, s[1..]);
      }
    }
  }

  /** Sorting is a permutation of the entries. */
  lemma {:induction false} SortPermutation(s: seq<Entry>)
    ensures multiset(SortByCountDesc(s)) == multiset(s)
    decreases |s|
  {
    if |s| > 0 {
      var init := s[..|s| - 1];
      assert s == init + [s[|s| - 1]];
      SortPermutation(init);
      InsertPermutation(s[|s| - 1], SortByCountDesc(init));
    }
  }

  predicate Descending(s: seq<Entry>) {
    forall i, j :: 0 <= i < j < |s| ==> s[i].count >= s[j].count
  }

  /** The entries with one count, in order. */
  function WithCount(s: seq<Entry>, c: nat): seq<Entry>
    decreases |s|
  {
    if |s| == 0 then []
    else (if s[0].count == c then [s[0]] else []) + WithCount(s[1..], c)
  }

  lemma {:induction false} WithCountAppend(s: seq<Entry>, t: seq<Entry>, c: nat)
    ensures WithCount(s + t, c) == WithCount(s, c) + WithCount(t, c)
    decreases |s|
  {
    if |s| == 0 {
      assert s + t == t;
    } else {
      var x, rest := s[0], s[1..];
      assert s == [x] + rest;
      assert s + t == [x] + (rest + t);
      WithCountCons(x, rest + t, c);
      WithCountCons(x, rest, c);
      WithCountAppend(rest, t, c);
    }
  }

  lemma WithCountCons(x: Entry, s: seq<Entry>, c: nat)
    ensures WithCount([x] + s, c) == (if x.count == c then [x] else []) + WithCount(s, c)
  {
    assert ([x] + s)[1..] == s;
  }

  /** Inserting an entry no larger than a bound into entries no larger than it keeps them so. */
  lemma {:induction false} InsertBelow(x: Entry, s: seq<Entry>, bound: nat)
    requires x.count <= bound
    requires forall j :: 0 <= j < |s| ==> s[j].count <= bound
    ensures forall j :: 0 <= j < |Insert(x, s)| ==> Insert(x, s)[j].count <= bound
    decreases |s|
  {
    if |s| > 0 && s[0].count >= x.count {
      InsertBelow(x, s[1..], bound);
      var r := Insert(x, s[1..]);
      assert forall j :: 1 <= j < |r| + 1 ==> ([s[0]] + r)[j] == r[j - 1];
    }
  }

  lemma {:induction false} InsertDescending(x: Entry, s: seq<Entry>)
    requires Descending(s)
    ensures Descending(Insert(x, s))
    decreases |s|
  {
    if |s| > 0 && s[0].count >= x.count {
      InsertDescending(x, s[1..]);
      InsertBelow(x, s[1..], s[0].count);
      var r := Insert(x, s[1..]);
      var q := [s[0]] + r;
      forall i, j | 0 <= i < j < |q| ensures q[i].count >= q[j].count {
        assert q[j] == r[j - 1];
        if i > 0 {
          assert q[i] == r[i - 1];
        }
      }
    }
  }

  lemma {:induction false} InsertWithCount(x: Entry, s: seq<Entry>, c: nat)
    requires Descending(s)
    ensures WithCount(Insert(x, s), c) == WithCount(s, c) + (if x.count == c then [x] else [])
    decreases |s|
  {
    if |s| > 0 {
      if s[0].count >= x.count {
        InsertWithCount(x, s[1..], c);
        var r := Insert(x, s[1..]);
        assert Insert(x, s) == [s[0]] + r;
        WithCountAppend([s[0]], r, c);
        WithCountAppend([s[0]], s[1..], c);
        assert s == [s[0]] + s[1..];
      } else {
        assert Insert(x, s) == [x] + s;
        WithCountAppend([x], s, c);
        if x.count == c {
          AllBelow(s, c);
        }
      }
    }
  }

  lemma {:induction false} AllBelow(s: seq<Entry>, c: nat)
    requires Descending(s) && |s| > 0 && s[0].count < c
    ensures WithCount(s, c) == []
    decreases |s|
  {
    if |s| > 1 {
      AllBelow(s[1..], c);
    }
  }

  /** The report's camera list is sorted by count, highest first. */
  lemma {:induction false} SortDescending(s: seq<Entry>)
    ensures Descending(SortByCountDesc(s))
    decreases |s|
  {
    if |s| > 0 {
      SortDescending(s[..|s| - 1]);
      InsertDescending(s[|s| - 1], SortByCountDesc(s[..|s| - 1]));
    }
  }

  /** Sorting keeps cameras with equal counts in their original order (Python's sort is stable). */
  lemma {:induction false} SortStable(s: seq<Entry>, c: nat)
    ensures WithCount(SortByCountDesc(s), c) == WithCount(s, c)
    decreases |s|
  {
    if |s| > 0 {
      var init := s[..|s| - 1];
      var x := s[|s| - 1];
      var sorted := SortByCountDesc(init);
      SortDescending(init);
      var single := if x.count == c then [x] else [];
      calc {
        WithCount(SortByCountDesc(s), c);
        { assert SortByCountDesc(s) == Insert(x, sorted); }
        WithCount(Insert(x, sorted), c);
        { InsertWithCount(x, sorted, c); }
        WithCount(sorted, c) + single;
        { SortStable(init, c); }
        WithCount(init, c) + single;
        { WithCountSingle(x, c); }
        WithCount(init, c) + WithCount([x], c);
        { WithCountAppend(init, [x], c); }
        WithCount(init + [x], c);
        { assert s == init + [x]; }
        WithCount(s, c);
      }
    }
  }

  lemma WithCountSingle(x: Entry, c: nat)
    ensures WithCount([x], c) == if x.count == c then [x] else []
  {
    assert [x][1..] == [];
  }

  /** The camera histogram as `stats["cameras"].items()`: cameras in first-seen order. */
  function HistogramEntries(cameras: seq<string>): seq<Entry> {
    var order := FirstAppearances(cameras);
    var tally := Tally(cameras);
    TallySpec(cameras);
    FirstAppearancesSpec(cameras);
    seq(|order|, i requires 0 <= i < |order| => Entry(order[i], tally[order[i]]))
  }

  /** The camera list of the report. */
  function CameraList(cameras: seq<string>): seq<Entry> {
    SortByCountDesc(HistogramEntries(cameras))
  }

  /** The histogram holds every camera seen once, with the number of files it took. */
  lemma HistogramSpec(cameras: seq<string>)
    ensures var h := HistogramEntries(cameras);
      && (forall e :: e in h ==> e.camera in cameras && e.count == multiset(cameras)[e.camera])
      && (forall cam :: cam in cameras ==> Entry(cam, multiset(cameras)[cam]) in h)
      && Distinct(h)
  {
    var h := HistogramEntries(cameras);
    var order := FirstAppearances(cameras);
    TallySpec(cameras);
    FirstAppearancesSpec(cameras);
    forall cam | cam in cameras
      ensures Entry(cam, multiset(cameras)[cam]) in h
    {
      var i :| 0 <= i < |order| && order[i] == cam;
      assert h[i] == Entry(cam, multiset(cameras)[cam]);
    }
    forall i, j | 0 <= i < j < |h|
      ensures h[i] != h[j]
    {
      assert h[i].camera == order[i] && h[j].camera == order[j];
    }
  }

  /** Every camera seen is listed once, with the number of files it took, highest count first. */
  lemma CameraListSpec(cameras: seq<string>)
    ensures var r := CameraList(cameras);
      && Descending(r)
      && (forall e :: e in r ==> e.camera in cameras && e.count == multiset(cameras)[e.camera])
      && (forall cam :: cam in cameras ==> Entry(cam, multiset(cameras)[cam]) in r)
      && Distinct(r)
  {
    var h := HistogramEntries(cameras);
    var r := CameraList(cameras);
    HistogramSpec(cameras);
    SortDescending(h);
    SortPermutation(h);
    SameElements(h, r);
    DistinctPermutation(h, r);
  }
}
