/** File classification by extension and month labels (chronicle/organize_photos.py). */
module Classify {
  import opened Wrappers
  import opened Text
  import opened Numeric
  import opened Paths

  const PhotoExtensions: set<string> := {".jpg", ".jpeg", ".png", ".heic", ".tif", ".tiff", ".bmp", ".gif"}

  const RawExtensions: set<string> := {
    ".cr2", ".cr3", ".nef", ".nrw", ".arw", ".srf", ".sr2", ".orf", ".raf", ".rw2", ".dng",
    ".pef", ".x3f", ".3fr", ".mef", ".erf", ".kdc", ".dcr", ".mos", ".mrw", ".raw", ".rwl", ".srw"}

  const JpgExtensions: set<string> := {".jpg", ".jpeg"}

  const VideoExtensions: set<string> := {
    ".mp4", ".mov", ".avi", ".mkv", ".m4v", ".mpg", ".mpeg", ".wmv", ".flv", ".webm",
    ".3gp", ".3g2", ".mts", ".m2ts", ".vob", ".ogv"}

  /** The extensions the first pass of `organize_photos` accepts. */
  const AllExtensions: set<string> := PhotoExtensions + RawExtensions + VideoExtensions

  /** The file-type families, named by `CategoryName` as the organizer spells them. */
  datatype Category = Raw | Jpg | Video | Other

  function CategoryName(c: Category): string {
    match c
    case Raw => "RAW"
    case Jpg => "JPG"
    case Video => "VIDEO"
    case Other => "OTHER"
  }

  /** `path.suffix.lower()` */
  function Extension(name: string): string {
    Lower(Suffix(name))
  }

  predicate IsVideo(name: string) {
    Extension(name) in VideoExtensions
  }

  /** `is_raw_file` */
  predicate IsRawFile(name: string) {
    Extension(name) in RawExtensions
  }

  /** `is_jpg_file` */
  predicate IsJpgFile(name: string) {
    Extension(name) in JpgExtensions
  }

  /** `get_file_type_category`: RAW, JPG and VIDEO exactly for their extension sets, OTHER
      for everything else. */
  function FileTypeCategory(name: string): (c: Category)
    ensures c == Raw <==> IsRawFile(name)
    ensures c == Jpg <==> IsJpgFile(name)
    ensures c == Video <==> IsVideo(name)
    ensures c == Other <==> !IsRawFile(name) && !IsJpgFile(name) && !IsVideo(name)
  {
    ExtensionSetsDisjoint();
    var ext := Extension(name);
    if ext in RawExtensions then Raw
    else if ext in JpgExtensions then Jpg
    else if ext in VideoExtensions then Video
    else Other
  }

  /** The RAW, JPG and video families do not overlap, and JPG is a kind of photo. */
  lemma ExtensionSetsDisjoint()
    ensures forall e :: e in JpgExtensions ==> e !in RawExtensions
    ensures forall e :: e in VideoExtensions ==> e !in RawExtensions
    ensures forall e :: e in VideoExtensions ==> e !in JpgExtensions
    ensures forall e :: e in JpgExtensions ==> e in PhotoExtensions
  {
  }

  /** Different categories have different names. */
  lemma CategoryNamesDistinct(a: Category, b: Category)
    ensures CategoryName(a) == CategoryName(b) <==> a == b
  {
  }

  /** The English month names of `calendar.month_name`, January first. */
  const MonthNames: seq<string> := ["January", "February", "March", "April", "May", "June",
    "July", "August", "September", "October", "November", "December"]

  const UnknownMonth := "UnknownMonth"

  /** `format_month_name(month_number, format_type)` */
  function FormatMonthName(m: int, format: string): string {
    if 1 <= m <= 12 then
      if format == "number" then FormatNat(m, 2)
      else FormatNat(m, 2) + " - " + MonthNames[m - 1]
    else UnknownMonth
  }

  /** A month label starts with the month as exactly two digits; in the "number" format it is
      nothing else, in any other it goes on with " - " and the month's name. Out of range the
      label is `UnknownMonth`. */
  lemma FormatMonthNameShape(m: int, format: string)
    ensures var r := FormatMonthName(m, format);
      && (1 <= m <= 12 ==>
           && |FormatNat(m, 2)| == 2 && DigitsValue(FormatNat(m, 2)) == m
           && (format == "number" ==> r == FormatNat(m, 2))
           && (format != "number" ==> r == FormatNat(m, 2) + " - " + MonthNames[m - 1]))
      && (!(1 <= m <= 12) <==> r == UnknownMonth)
  {
    if 1 <= m <= 12 {
      assert Pow10(2) == 100;
      FormatNatWidth(m, 2);
      FormatNatValue(m, 2);
      var d := FormatNat(m, 2);
      assert FormatMonthName(m, format)[0] == d[0];
    }
  }

  /** The text before the first " - " of digits alone, or of digits followed by " - " and a
      name, is the digits. */
  lemma DigitsBeforeSeparator(d: string, name: string)
    requires AllDigits(d)
    ensures BeforeFirst(d, " - ") == d
    ensures BeforeFirst(d + " - " + name, " - ") == d
  {
    assert ' ' !in d by {
      forall i | 0 <= i < |d| ensures d[i] != ' ' { assert IsDigit(d[i]); }
    }
    BeforeFirstSkips(d, "", " - ");
    assert d + "" == d;
    var t := " - " + name;
    assert t[..3] == " - ";
    BeforeFirstSkips(d, t, " - ");
    assert d + " - " + name == d + t;
  }

  /** Reading the month back from its label, as the interactive path of `organize_photos`
      does with `int(label.split(" - ")[0])`, gives the month in both formats. */
  lemma MonthLabelRoundTrip(m: int, format: string)
    requires 1 <= m <= 12
    ensures ParseInt(BeforeFirst(FormatMonthName(m, format), " - ")) == Some(m)
  {
    DigitsBeforeSeparator(FormatNat(m, 2), MonthNames[m - 1]);
    ParseFormatNat(m, 2);
  }
}
