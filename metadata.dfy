/** Metadata selection (`get_date_taken`, `get_camera_name`), the validation of the operator's
    answers in `prompt_for_metadata`, and the per-file resolution of the first pass of
    `organize_photos` (chronicle/organize_photos.py). */
module Metadata {
  import opened Wrappers
  import opened Text
  import opened Numeric
  import opened Paths
  import opened Classify
  import opened CameraNames

  /** The part of a `datetime` the organizer looks at. */
  datatype Date = Date(year: int, month: int)

  /** A date `datetime` can represent: years 1 to 9999, months 1 to 12. */
  type DateTime = d: Date | 1 <= d.year <= 9999 && 1 <= d.month <= 12 witness Date(1970, 1)

  /** `datetime(year, month, 1)`; `None` stands for the `ValueError` it raises out of range. */
  function MakeDate(year: int, month: int): (r: Option<DateTime>)
    ensures r.Some? <==> 1 <= year <= 9999 && 1 <= month <= 12
    ensures r.Some? ==> r.value.year == year && r.value.month == month
  {
    if 1 <= year <= 9999 && 1 <= month <= 12 then Some(Date(year, month)) else None
  }

  /** The EXIF tags of one image by name, as `get_exif` returns them (empty when unavailable). */
  type ExifTags = map<string, string>

  /** `exif.get(tag)` */
  function Lookup(exif: ExifTags, tag: string): Option<string> {
    if tag in exif then Some(exif[tag]) else None
  }

  /** `exif.get("DateTimeOriginal") or exif.get("DateTime")` */
  function DateString(exif: ExifTags): Option<string> {
    if Given(Lookup(exif, "DateTimeOriginal")) then Lookup(exif, "DateTimeOriginal")
    else Lookup(exif, "DateTime")
  }

  /** `get_date_taken(path)`. `exif` is what `get_exif(path)` returns, `parse` stands for
      `datetime.strptime(_, "%Y:%m:%d %H:%M:%S")` (`None` when it raises) and `mtime` for
      `datetime.fromtimestamp(os.path.getmtime(path))` (`None` when that raises). */
  function DateTaken(name: string, exif: ExifTags, parse: string -> Option<DateTime>,
                     mtime: Option<DateTime>): Option<DateTime>
  {
    if !IsVideo(name) && Given(DateString(exif)) && parse(DateString(exif).value).Some? then
      parse(DateString(exif).value)
    else mtime
  }

  /** For a video the EXIF tags and the parser play no part: the date is the mtime. */
  lemma VideoDateIsMtime(name: string, exif: ExifTags, parse: string -> Option<DateTime>,
                         mtime: Option<DateTime>)
    requires IsVideo(name)
    ensures DateTaken(name, exif, parse, mtime) == mtime
  {
  }

  /** For an image, a `DateTimeOriginal` that parses wins over `DateTime` and over the mtime. */
  lemma OriginalDateWins(name: string, exif: ExifTags, parse: string -> Option<DateTime>,
                         mtime: Option<DateTime>)
    requires !IsVideo(name)
    requires "DateTimeOriginal" in exif && exif["DateTimeOriginal"] != ""
    requires parse(exif["DateTimeOriginal"]).Some?
    ensures DateTaken(name, exif, parse, mtime) == parse(exif["DateTimeOriginal"])
  {
  }

  /** `DateTime` is read only when `DateTimeOriginal` is missing or empty. */
  lemma DateTimeWhenNoOriginal(name: string, exif: ExifTags, parse: string -> Option<DateTime>,
                               mtime: Option<DateTime>)
    requires !IsVideo(name)
    requires !("DateTimeOriginal" in exif && exif["DateTimeOriginal"] != "")
    requires "DateTime" in exif && exif["DateTime"] != "" && parse(exif["DateTime"]).Some?
    ensures DateTaken(name, exif, parse, mtime) == parse(exif["DateTime"])
  {
  }

  /** A `DateTimeOriginal` that does not parse goes straight to the mtime, whatever
      `DateTime` holds. */
  lemma BadOriginalSkipsDateTime(name: string, exif: ExifTags, parse: string -> Option<DateTime>,
                                 mtime: Option<DateTime>)
    requires "DateTimeOriginal" in exif && exif["DateTimeOriginal"] != ""
    requires parse(exif["DateTimeOriginal"]).None?
    ensures DateTaken(name, exif, parse, mtime) == mtime
  {
  }

  /** `get_camera_name(path)`: `UnknownCamera` for a video, otherwise the normalised EXIF
      `Make` and `Model`. */
  function CameraOf(name: string, exif: ExifTags): (r: string)
    ensures r != "" && SafeLabel(r)
    ensures IsVideo(name) ==> r == UnknownCamera
  {
    if IsVideo(name) then
      CameraNameShape(None, None);
      UnknownCamera
    else
      CameraNameShape(Lookup(exif, "Make"), Lookup(exif, "Model"));
      CameraName(Lookup(exif, "Make"), Lookup(exif, "Model"))
  }

  const UnknownYear := "UnknownYear"

  /** The three lines the operator types at the prompts of `prompt_for_metadata`. */
  datatype Answers = Answers(camera: string, year: string, month: string)

  /** What `prompt_for_metadata` returns. */
  datatype Prompted = Prompted(camera: string, year: string, month: string)

  /** The camera answer: blank means `UnknownCamera`, anything else is normalised as a make. */
  function PromptedCamera(line: string): string {
    var c := StripSpace(line);
    if c == "" then UnknownCamera else CameraName(Some(c), None)
  }

  /** The year answer: a number from 1900 to 2100, written with four digits, or `UnknownYear`. */
  function PromptedYear(line: string): string {
    var y := StripSpace(line);
    if y == "" then UnknownYear
    else match ParseInt(y)
      case Some(v) => if 1900 <= v <= 2100 then FormatNat(v, 4) else UnknownYear
      case None => UnknownYear
  }

  /** The month answer: a number from 1 to 12, formatted as a month label, or `UnknownMonth`. */
  function PromptedMonth(line: string, monthFormat: string): string {
    var m := StripSpace(line);
    if m == "" then UnknownMonth
    else match ParseInt(m)
      case Some(v) => if 1 <= v <= 12 then FormatMonthName(v, monthFormat) else UnknownMonth
      case None => UnknownMonth
  }

  /** `prompt_for_metadata(file_path, month_format)` with the operator's answers given. */
  function PromptForMetadata(answers: Answers, monthFormat: string): Prompted {
    Prompted(PromptedCamera(answers.camera), PromptedYear(answers.year),
             PromptedMonth(answers.month, monthFormat))
  }

  /** A year label: four digits, or `UnknownYear`. */
  predicate IsYearLabel(s: string) {
    s == UnknownYear || (|s| == 4 && AllDigits(s))
  }

  /** A month label of the given format, or `UnknownMonth`. */
  predicate IsMonthLabel(s: string, monthFormat: string) {
    s == UnknownMonth || exists m :: 1 <= m <= 12 && s == FormatMonthName(m, monthFormat)
  }

  /** A prompted year is accepted exactly when it is a number in 1900..2100, and then it is
      that number in four digits. */
  lemma PromptedYearValid(line: string)
    ensures var r := PromptedYear(line);
      var v := ParseInt(StripSpace(line));
      && IsYearLabel(r)
      && (r != UnknownYear <==> v.Some? && 1900 <= v.value <= 2100)
      && (r != UnknownYear ==> r == FormatNat(v.value, 4) && ParseInt(r) == v)
  {
    var v := ParseInt(StripSpace(line));
    if v.Some? && 1900 <= v.value <= 2100 {
      assert Pow10(4) == 10000 by {
        assert Pow10(2) == 100 by { assert Pow10(1) == 10; }
        assert Pow10(3) == 1000;
      }
      FormatNatWidth(v.value, 4);
      ParseFormatNat(v.value, 4);
      assert FormatNat(v.value, 4) != UnknownYear by {
        assert IsDigit(FormatNat(v.value, 4)[0]);
      }
    }
  }

  /** A prompted month is accepted exactly when it is a number in 1..12, and then it is that
      month's label. */
  lemma PromptedMonthValid(line: string, monthFormat: string)
    ensures var r := PromptedMonth(line, monthFormat);
      var v := ParseInt(StripSpace(line));
      && IsMonthLabel(r, monthFormat)
      && (r != UnknownMonth <==> v.Some? && 1 <= v.value <= 12)
      && (r != UnknownMonth ==> r == FormatMonthName(v.value, monthFormat))
  {
    var v := ParseInt(StripSpace(line));
    if v.Some? && 1 <= v.value <= 12 {
      FormatMonthNameShape(v.value, monthFormat);
      assert FormatMonthName(v.value, monthFormat) != UnknownMonth;
    }
  }

  /** `datetime(int(year), int(month.split(" - ")[0]), 1)` in the interactive path of
      `organize_photos`; `None` is the `ValueError` its `except` catches. */
  function PromptedDate(year: string, month: string): Option<DateTime> {
    match ParseInt(year)
    case None => None
    case Some(y) =>
      match ParseInt(BeforeFirst(month, " - "))
      case None => None
      case Some(m) => MakeDate(y, m)
  }

  /** Labels accepted at the prompts always make a date, so the `except` around it cannot fire;
      the date has the answered year and month. */
  lemma PromptedDateDefined(answers: Answers, monthFormat: string)
    requires var p := PromptForMetadata(answers, monthFormat);
      p.year != UnknownYear && p.month != UnknownMonth
    ensures var p := PromptForMetadata(answers, monthFormat);
      var d := PromptedDate(p.year, p.month);
      && d.Some?
      && Some(d.value.year) == ParseInt(StripSpace(answers.year))
      && Some(d.value.month) == ParseInt(StripSpace(answers.month))
  {
    var p := PromptForMetadata(answers, monthFormat);
    PromptedYearValid(answers.year);
    PromptedMonthValid(answers.month, monthFormat);
    var m := ParseInt(StripSpace(answers.month)).value;
    MonthLabelRoundTrip(m, monthFormat);
  }

  /** One discovered file: its path, its EXIF tags, its mtime as a date (`None` when unavailable)
      and the answers the operator would give if prompted for it. */
  datatype SourceFile = SourceFile(path: Path, exif: ExifTags, mtime: Option<DateTime>,
                                   answers: Answers)

  /** The record the first pass appends to `file_info_list`. */
  datatype FileInfo = FileInfo(path: Path, camera: string, year: string, month: string,
                               category: Category, stem: string)

  /** A resolved file and what it adds to the `files_no_exif`, `files_no_date` and
      `files_no_camera` counters. */
  datatype Resolution = Resolution(info: FileInfo, noExif: bool, noDate: bool, noCamera: bool)

  /** Camera, date and counter flags after the prompt-or-count step. */
  datatype Settled = Settled(camera: string, date: Option<DateTime>, noDate: bool, noCamera: bool)

  /** The handling of missing metadata (the interactive fallback or the counters). */
  function Settle(camera: string, date: Option<DateTime>, answers: Answers, interactive: bool,
                  monthFormat: string): (r: Settled)
    ensures r.camera == camera || r.camera == PromptedCamera(answers.camera)
    ensures camera != UnknownCamera ==> r.camera == camera
    ensures date.Some? ==> r.date == date
    ensures r.noDate <==> r.date.None?
    ensures interactive ==> !r.noCamera
    ensures !interactive ==> r.camera == camera && r.date == date
    ensures !interactive ==> r.noCamera == (camera == UnknownCamera)
    ensures interactive && camera == UnknownCamera ==> r.camera == PromptedCamera(answers.camera)
    ensures interactive && date.None? &&
      (PromptedYear(answers.year) == UnknownYear ||
       PromptedMonth(answers.month, monthFormat) == UnknownMonth)
      ==> r.date.None?
  {
    var needsCamera := camera == UnknownCamera;
    var needsDate := date.None?;
    if (needsCamera || needsDate) && interactive then
      var p := PromptForMetadata(answers, monthFormat);
      var camera' := if needsCamera then p.camera else camera;
      if !needsDate then Settled(camera', date, false, false)
      else if p.year != UnknownYear && p.month != UnknownMonth then
        var d := PromptedDate(p.year, p.month);
        Settled(camera', d, d.None?, false)
      else Settled(camera', None, true, false)
    else Settled(camera, date, needsDate, needsCamera)
  }

  /** The year label of a date, `f"{date.year:04d}"`. */
  function YearLabel(date: Option<DateTime>): string {
    if date.Some? then FormatNat(date.value.year, 4) else UnknownYear
  }

  function MonthLabel(date: Option<DateTime>, monthFormat: string): string {
    if date.Some? then FormatMonthName(date.value.month, monthFormat) else UnknownMonth
  }

  /** The body of the first-pass loop of `organize_photos` for one accepted file. */
  function Resolve(f: SourceFile, parse: string -> Option<DateTime>, interactive: bool,
                   monthFormat: string): Resolution
  {
    var name := f.path.name;
    var s := Settle(CameraOf(name, f.exif), DateTaken(name, f.exif, parse, f.mtime), f.answers,
                    interactive, monthFormat);
    var info := FileInfo(f.path, s.camera, YearLabel(s.date), MonthLabel(s.date, monthFormat),
                         FileTypeCategory(name), Stem(name));
    Resolution(info, !IsVideo(name) && |f.exif| == 0, s.noDate, s.noCamera)
  }

  /** The year and month labels of a resolved file are plain segments. */
  lemma LabelsPlain(date: Option<DateTime>, monthFormat: string)
    ensures PlainSegment(YearLabel(date)) && PlainSegment(MonthLabel(date, monthFormat))
  {
    LabelsWellFormed(date, monthFormat);
    if date.Some? {
      var m := date.value.month;
      FormatMonthNameShape(m, monthFormat);
      assert IsDigit(YearLabel(date)[0]);
      assert IsDigit(MonthLabel(date, monthFormat)[0]);
    }
  }

  /** Year and month labels are well formed, and unknown together. */
  lemma LabelsWellFormed(date: Option<DateTime>, monthFormat: string)
    ensures IsYearLabel(YearLabel(date))
    ensures IsMonthLabel(MonthLabel(date, monthFormat), monthFormat)
    ensures YearLabel(date) == UnknownYear <==> date.None?
    ensures MonthLabel(date, monthFormat) == UnknownMonth <==> date.None?
    ensures date.Some? ==> ParseInt(YearLabel(date)) == Some(date.value.year)
  {
    if date.Some? {
      var d := date.value;
      assert Pow10(4) == 10000 by {
        assert Pow10(2) == 100 by { assert Pow10(1) == 10; }
        assert Pow10(3) == 1000;
      }
      FormatNatWidth(d.year, 4);
      ParseFormatNat(d.year, 4);
      assert IsDigit(FormatNat(d.year, 4)[0]);
      FormatMonthNameShape(d.month, monthFormat);
    }
  }

  /** A prompted camera is a safe non-empty label. */
  lemma PromptedCameraSafe(line: string)
    ensures PromptedCamera(line) != "" && SafeLabel(PromptedCamera(line))
  {
    CameraNameShape(None, None);
    var c := StripSpace(line);
    if c != "" {
      CameraNameShape(Some(c), None);
    }
  }

  /** Settling keeps the camera a safe non-empty label. */
  lemma SettleKeepsSafe(camera: string, date: Option<DateTime>, answers: Answers,
                        interactive: bool, monthFormat: string)
    requires camera != "" && SafeLabel(camera)
    ensures var s := Settle(camera, date, answers, interactive, monthFormat);
      s.camera != "" && SafeLabel(s.camera)
  {
    var s := Settle(camera, date, answers, interactive, monthFormat);
    PromptedCameraSafe(answers.camera);
    assert s.camera == camera || s.camera == PromptedCamera(answers.camera);
  }

  /** Every resolved record has a well-formed year and month, a safe non-empty camera label,
      the category and stem of its name. */
  lemma ResolvedRecordWellFormed(f: SourceFile, parse: string -> Option<DateTime>,
                                 interactive: bool, monthFormat: string)
    ensures var info := Resolve(f, parse, interactive, monthFormat).info;
      && IsYearLabel(info.year) && IsMonthLabel(info.month, monthFormat)
      && (info.year == UnknownYear <==> info.month == UnknownMonth)
      && info.camera != "" && SafeLabel(info.camera)
      && info.category == FileTypeCategory(f.path.name) && info.stem == Stem(f.path.name)
  {
    var name := f.path.name;
    var camera := CameraOf(name, f.exif);
    var date := DateTaken(name, f.exif, parse, f.mtime);
    var s := Settle(camera, date, f.answers, interactive, monthFormat);
    SettleKeepsSafe(camera, date, f.answers, interactive, monthFormat);
    LabelsWellFormed(s.date, monthFormat);
  }

  /** The interactive mode never counts a file as missing its camera; the non-interactive mode
      counts exactly the files whose camera or date is missing. */
  lemma MissingCounters(f: SourceFile, parse: string -> Option<DateTime>, interactive: bool,
                        monthFormat: string)
    ensures var r := Resolve(f, parse, interactive, monthFormat);
      var name := f.path.name;
      && (interactive ==> !r.noCamera)
      && (!interactive ==> r.noCamera == (CameraOf(name, f.exif) == UnknownCamera))
      && (!interactive ==> r.noDate == DateTaken(name, f.exif, parse, f.mtime).None?)
      && (r.noDate <==> r.info.year == UnknownYear)
      && (r.noExif <==> !IsVideo(name) && |f.exif| == 0)
  {
    var name := f.path.name;
    var s := Settle(CameraOf(name, f.exif), DateTaken(name, f.exif, parse, f.mtime), f.answers,
                    interactive, monthFormat);
    LabelsWellFormed(s.date, monthFormat);
  }

  /** The prompts replace only what is missing: a known camera and a known date are kept. */
  lemma PromptsOnlyForMissing(f: SourceFile, parse: string -> Option<DateTime>,
                              interactive: bool, monthFormat: string)
    ensures var info := Resolve(f, parse, interactive, monthFormat).info;
      var name := f.path.name;
      var camera := CameraOf(name, f.exif);
      var date := DateTaken(name, f.exif, parse, f.mtime);
      && (camera != UnknownCamera ==> info.camera == camera)
      && (date.Some? ==> info.year == YearLabel(date) && info.month == MonthLabel(date, monthFormat))
      && (!interactive ==> info.camera == camera && info.year == YearLabel(date))
  {
  }

  /** A missing date answered with a valid year and month at the prompts is filed under exactly
      that year and month, and is not counted as missing. */
  lemma PromptedDateUsed(f: SourceFile, parse: string -> Option<DateTime>, monthFormat: string,
                         y: int, m: int)
    requires DateTaken(f.path.name, f.exif, parse, f.mtime).None?
    requires ParseInt(StripSpace(f.answers.year)) == Some(y) && 1900 <= y <= 2100
    requires ParseInt(StripSpace(f.answers.month)) == Some(m) && 1 <= m <= 12
    ensures var r := Resolve(f, parse, true, monthFormat);
      && r.info.year == FormatNat(y, 4)
      && r.info.month == FormatMonthName(m, monthFormat)
      && !r.noDate
  {
    PromptedYearValid(f.answers.year);
    PromptedMonthValid(f.answers.month, monthFormat);
    PromptedDateDefined(f.answers, monthFormat);
  }

  /** A missing date whose year or month answer is rejected at the prompts stays missing: the
      file is filed under the unknown year and month and counted in `files_no_date`. */
  lemma RejectedDateStaysUnknown(f: SourceFile, parse: string -> Option<DateTime>, monthFormat: string)
    requires DateTaken(f.path.name, f.exif, parse, f.mtime).None?
    requires PromptedYear(f.answers.year) == UnknownYear ||
             PromptedMonth(f.answers.month, monthFormat) == UnknownMonth
    ensures var r := Resolve(f, parse, true, monthFormat);
      && r.info.year == UnknownYear
      && r.info.month == UnknownMonth
      && r.noDate
  {
  }
}
