# Chronicle photo organizer — a Dafny model

Chronicle sorts a tree of photos and videos into a destination folder. The layout is
`CAMERA/YEAR/MONTH` by default; `YEAR/MONTH` and `YEAR/MONTH/CAMERA` are the alternatives.
When the option to separate file types is on, a group holding both JPG and RAW files, or any
video, gets `JPG`/`RAW`/`VIDEO` subfolders.

Each run works in two passes:

- **First pass.** The organizer walks the source and keeps the files whose extension it knows.
  It reads each file's camera and date, from EXIF for images and from the modification time
  otherwise. In interactive mode it prompts for whatever is missing. It counts files with no
  EXIF, no date and no camera, and builds a per-camera histogram.
- **Second pass.** It counts RAW/JPG pairs, groups the files by camera/year/month and gives
  each file a folder. It then picks a free name there (`name_1.ext`, `name_2.ext`, …),
  records the file's SHA-256 under its path relative to the destination, and copies or moves
  the file.

After both passes it merges the checksums into `.checksums.json` and reports
the figures with a duration and a camera list sorted by count. Defaults for
the scheme, the month format and the separation option come from a JSON
settings store.

## How the model is built

- The pure parts of the code are functions. These are the camera-name normaliser,
  classification, month labels, the date and camera of a file, the prompts, pairing,
  grouping and folders.
- The loops of the code are methods with loop invariants, proved equal to those functions.
  These are `clean`'s word loop, its separator loop and its `while "__" in s` loop, the
  iPhone part search, the candidate search of `get_unique_target`, the first pass, the pair
  count, grouping and the second pass.
- State the code changes is held in classes:
  - `Placement.FileSystem` holds the set of existing paths and the checksum file.
  - `Settings.SettingsStore` holds the settings file.
- The second pass is specified by `Placement.Place`, a function over the list of
  copy/move jobs. Its properties are proved as lemmas:
  - targets are distinct and below the destination;
  - every kept file is placed exactly once;
  - the checksum log is sound and complete.
- `Organizer.OrganizePhotos` is the whole run. Its postcondition gives:
  - the returned statistics as a function of the inputs;
  - the final set of paths;
  - the final checksum file.
- `Organizer.SummaryBounds` and `Organizer.RunDestinationsDistinct` state what the report and
  the placement guarantee.

Behaviour of the code worth knowing:

- `clean` capitalises every word, so the normaliser does not return its own output
  unchanged. The table turns the model `ILCE_7M3` into `A7III` (`CameraNames.SonyAliasExample`),
  and `A7III`, cleaned as a word, becomes `A7iii` (`CameraNames.CleanWordA7III`).
- For the same reason the word `iPhone` is cleaned as `Iphone` (`CameraNames.CleanWordIphone`),
  so the docstring's spelling `Apple_iPhone_14_Pro` (organize_photos.py:101) is not the one
  produced.
- The Sony and DJI alias tests are kept in the code's order, with its duplicated `ILCE_7M3`
  test and its redundant `ILCE_7RM3A` test.

## Model

| member | source | states |
|---|---|---|
| Text.Lower | chronicle/organize_photos.py:120 | `str.lower()`: same length, each character lower-cased |
| Text.Upper | chronicle/organize_photos.py:125 | `str.upper()`: same length, each character upper-cased |
| Text.Capitalize | chronicle/organize_photos.py:122 | `str.capitalize()`: first character upper-cased, the rest lower-cased |
| Text.ContainsIff | chronicle/organize_photos.py:134 | the substring test `p in s` holds exactly when `p` occurs at some index of `s` |
| Text.Replace | chronicle/organize_photos.py:112-135 | definition of `str.replace`; specified by `Text.ReplaceAbsent`, `Text.ReplaceKeepsOut`, `Text.ReplaceCharRemoves` and `Text.ReplaceShrinks` |
| Text.ReplaceAbsent | chronicle/organize_photos.py:112-113 | `replace` of a pattern that does not occur leaves the text unchanged |
| Text.ReplaceKeepsOut | chronicle/organize_photos.py:131-135 | `replace` never introduces a character absent from both the text and the replacement |
| Text.ReplaceCharRemoves | chronicle/organize_photos.py:131-132 | replacing a character by text without it removes every occurrence |
| Text.ReplaceShrinks | chronicle/organize_photos.py:134-135 | replacing `__` by `_` never lengthens and, while `__` occurs, strictly shortens the text, so the `while` loop ends |
| Text.StripSpace | chronicle/organize_photos.py:110-114 | `strip()`: the result neither starts nor ends with whitespace, Python's `str.isspace` set |
| Text.StripSpaceSlice | chronicle/organize_photos.py:110-114 | `strip()` is the slice `s[i..j]` of the input with only whitespace before `i` and from `j` on, and a non-space at each end of a non-empty result: exactly the leading and trailing whitespace is removed |
| Text.StripChar | chronicle/organize_photos.py:137 | `strip("_")`: a slice of the input that neither starts nor ends with `_` |
| Text.StripNoBreakSpace | chronicle/organize_photos.py:110 | whitespace beyond ASCII is stripped: a lone no-break space strips to the empty string |
| Text.StripIdeographicSpace | chronicle/organize_photos.py:259 | a word followed by an ideographic space strips to the word, as a typed year with a trailing U+3000 does |
| Text.StripCharSlice | chronicle/organize_photos.py:137 | `strip("_")` is the slice `s[i..j]` with only `_` before `i` and from `j` on, and no `_` at either end of a non-empty result |
| Text.SplitWords | chronicle/organize_photos.py:116 | `split()`: every word is non-empty and holds no whitespace |
| Text.SplitWordsRuns | chronicle/organize_photos.py:116 | `split()`: the input is its words, in order, woven with whitespace-only gaps of which the inner ones are non-empty, so the words are exactly the maximal runs of non-whitespace |
| Text.SplitOn | chronicle/organize_photos.py:168 | `split("_")`: at least one part, no part contains `_`, parts use only characters of the input |
| Text.JoinSplitOn | chronicle/organize_photos.py:168 | joining the parts of `split(c)` with `c` gives back the input |
| Text.BeforeFirst | chronicle/organize_photos.py:451 | `split(" - ")[0]`: a prefix of the input |
| Text.BeforeFirstStopsAtFirst | chronicle/organize_photos.py:451 | the prefix is the whole input or ends where the separator first occurs: no occurrence starts inside it |
| Text.BeforeFirstLacksSep | chronicle/organize_photos.py:451 | the first part of a split holds no separator |
| Text.SplitOnWithout | chronicle/organize_photos.py:168 | text without the separator splits into one part, itself |
| Text.SplitOnAfter | chronicle/organize_photos.py:168 | text without the separator, then the separator, splits into that text and the parts of the rest |
| Text.SplitJoin | chronicle/organize_photos.py:168 | splitting the join of separator-free parts gives back the parts |
| Text.UnicodeDigitExamples | chronicle/organize_photos.py:170 | `isdigit()` in the iPhone part test holds for every ASCII digit and for non-ASCII digits such as the fullwidth one and the superscript two, and not for a letter |
| Numeric.Decimal | chronicle/organize_photos.py:304 | `str(i)`: a non-empty string of digits |
| Numeric.DecimalValue | chronicle/organize_photos.py:304 | the digits of `str(i)` denote `i` |
| Numeric.DecimalInjective | chronicle/organize_photos.py:304 | different numbers have different decimal strings |
| Numeric.FormatNat | chronicle/organize_photos.py:237 | `f"{n:02d}"`/`f"{n:04d}"`: digits only, at least the width |
| Numeric.FormatNatValue | chronicle/organize_photos.py:237 | the zero-padded digits denote `n` |
| Numeric.FormatNatWidth | chronicle/organize_photos.py:267 | a number below 10^width is padded to exactly the width |
| Numeric.DropUnderscores | chronicle/organize_photos.py:265 | `int()` ignores the underscores between digit groups; a plain digit string is unchanged |
| Numeric.DropUnderscoresJoins | chronicle/organize_photos.py:265 | dropping the underscores is `"".join(s.split("_"))` |
| Numeric.DropUnderscoresKeepsDigits | chronicle/organize_photos.py:265 | every digit is kept as often as it occurs, and every underscore goes |
| Numeric.ParseInt | chronicle/organize_photos.py:264-289 | definition of `int()`; specified by `Numeric.ParseFormatNat` and `Numeric.ParseIntRejects` |
| Numeric.ParseFormatNat | chronicle/organize_photos.py:451-452 | `int()` of a zero-padded number gives the number back |
| Numeric.ParseIntRejects | chronicle/organize_photos.py:264-273 | `int()` raises on the empty string, on a trailing `_` and on any character other than a digit or `_` past the sign |
| Paths.LastDot | chronicle/organize_photos.py:301 | the last `.` of a name, or none when the name has no `.` |
| Paths.StemSuffix | chronicle/organize_photos.py:301 | `stem + suffix == name`; the suffix is empty or a `.` followed by a dot-free text; a non-empty suffix has a non-empty stem |
| Paths.ChildOf | chronicle/organize_photos.py:540 | definition of `folder / name`; specified by `Paths.RelativeToChild` |
| Paths.RelativeTo | chronicle/organize_photos.py:547 | definition of `str(target.relative_to(dest))`; specified by `Paths.RelativeToBelow` and `Paths.RelativeToChild` |
| Paths.RelativeToBelow | chronicle/organize_photos.py:547 | `relative_to` succeeds exactly for a path whose folder starts with the base |
| Paths.RelativeToChild | chronicle/organize_photos.py:540-547 | the relative text of `base / … / name`, split at `/`, gives back the segments below the base and the name |
| Collections.FirstAppearancesSpec | chronicle/organize_photos.py:501-507 | dictionary key order: each key once, exactly the keys that occur |
| Collections.TallySpec | chronicle/organize_photos.py:484 | the `defaultdict(int)` counter holds exactly the values seen, each with its number of occurrences |
| Classify.IsRawFile | chronicle/organize_photos.py:204-206 | definition; specified by `Classify.FileTypeCategory` |
| Classify.IsJpgFile | chronicle/organize_photos.py:209-211 | definition; specified by `Classify.FileTypeCategory` |
| Classify.FileTypeCategory | chronicle/organize_photos.py:214-226 | RAW, JPG, VIDEO or OTHER exactly when the lower-cased suffix is in that set (or in none) |
| Classify.ExtensionSetsDisjoint | chronicle/organize_photos.py:17-53 | the RAW, JPG and video sets are pairwise disjoint, and JPG is a subset of the photo set |
| Classify.CategoryNamesDistinct | chronicle/organize_photos.py:214-226 | the four category names are distinct |
| Classify.FormatMonthName | chronicle/organize_photos.py:229-241 | definition; specified by `Classify.FormatMonthNameShape` and `Classify.MonthLabelRoundTrip` |
| Classify.FormatMonthNameShape | chronicle/organize_photos.py:229-241 | 1..12 gives two digits, alone for `number` and with ` - ` and the month's English name otherwise; every other number gives `UnknownMonth` |
| Classify.DigitsBeforeSeparator | chronicle/organize_photos.py:451 | splitting a month label on ` - ` gives its digits |
| Classify.MonthLabelRoundTrip | chronicle/organize_photos.py:448-452 | `int(label.split(" - ")[0])` of a month label is the month, in both formats |
| CameraNames.SafeLabel | chronicle/organize_photos.py:131-137 | definition of a folder-safe label; established by `CameraNames.FinishSafe` and `CameraNames.CleanTextSafe` |
| CameraNames.CleanText | chronicle/organize_photos.py:109-138 | definition of `clean`; specified by `CameraNames.CleanTextSafe` and computed by `CameraNames.Clean` |
| CameraNames.ReplaceEachRemoves | chronicle/organize_photos.py:131-132 | after the separator loop none of space, `/`, `\` and `-` is left |
| CameraNames.NoDoubleIff | chronicle/organize_photos.py:134 | "no two adjacent underscores" is the loop's exit test `"__" not in s` |
| CameraNames.Squeeze | chronicle/organize_photos.py:134-135 | collapsing underscore runs never lengthens and keeps the first character |
| CameraNames.SqueezeNoDouble | chronicle/organize_photos.py:134-135 | after collapsing, no `__` is left |
| CameraNames.SqueezeKeepsOut | chronicle/organize_photos.py:134-135 | collapsing introduces no new character |
| CameraNames.SqueezeFixed | chronicle/organize_photos.py:134 | text without `__` is left unchanged |
| CameraNames.SqueezeReplace | chronicle/organize_photos.py:135 | one `replace("__", "_")` does not change the collapsed result, so the loop computes it |
| CameraNames.SqueezeUnderscoreReplace | chronicle/organize_photos.py:135 | the same after a leading underscore |
| CameraNames.FinishSafe | chronicle/organize_photos.py:131-137 | the end of `clean` gives a folder-safe label: no separator, no `__`, no `_` at either end |
| CameraNames.SeparatorsRemoved | chronicle/organize_photos.py:131-132 | the separator loop leaves none of the four separators |
| CameraNames.StripKeepsSafe | chronicle/organize_photos.py:137 | stripping `_` from separator-free text without `__` gives a safe label |
| CameraNames.CleanTextSafe | chronicle/organize_photos.py:109-138 | every output of `clean` is a safe label |
| CameraNames.CleanParts | chronicle/organize_photos.py:116-128 | the word loop builds the capitalised words, in order |
| CameraNames.CleanPart | chronicle/organize_photos.py:119-128 | one word: known brands and other words capitalised, `ilce-`/`dsc-` codes upper-cased |
| CameraNames.Clean | chronicle/organize_photos.py:109-138 | `clean` computes the cleaned text, which is a safe label |
| CameraNames.ReplaceSeparators | chronicle/organize_photos.py:131-132 | the `for ch in …` loop replaces each separator in turn |
| CameraNames.CollapseUnderscores | chronicle/organize_photos.py:134-135 | the `while "__" in s` loop ends with the collapsed text |
| CameraNames.FirstIphoneIndex | chronicle/organize_photos.py:169-172 | the first part holding `IPHONE` and a digit in the sense of `str.isdigit` (any Unicode digit), with no earlier such part |
| CameraNames.TableAlias | chronicle/organize_photos.py:146-164 | a Sony or DJI alias, in the code's order of tests, is a non-empty safe label |
| CameraNames.NormalizeModel | chronicle/organize_photos.py:143-172 | the alias chain and the iPhone part search compute the normalised model |
| CameraNames.IphoneModel | chronicle/organize_photos.py:165-172 | the loop with `break` picks the first iPhone part with a digit, or leaves the model |
| CameraNames.FirstIphoneIndexIs | chronicle/organize_photos.py:169-172 | an index with no earlier match that matches, or is the end, is the first match |
| CameraNames.AliasModelSafe | chronicle/organize_photos.py:143-172 | normalising a safe model keeps it safe and keeps it non-empty exactly when it was |
| CameraNames.IphonePartSafe | chronicle/organize_photos.py:168-171 | an iPhone part of a safe model, with `_` removed, is a non-empty safe label |
| CameraNames.CameraName | chronicle/organize_photos.py:98-179 | definition of `normalize_camera_name`; specified by `CameraNames.CameraNameShape` and computed by `CameraNames.NormalizeCameraName` |
| CameraNames.NormalizeCameraName | chronicle/organize_photos.py:98-179 | computes the normalised name, which is non-empty and folder-safe |
| CameraNames.AssembleName | chronicle/organize_photos.py:174-179 | the early returns of the make/model assembly |
| CameraNames.JoinSafe | chronicle/organize_photos.py:178 | `f"{make}_{model}"` of two non-empty safe labels is safe |
| CameraNames.CameraNameShape | chronicle/organize_photos.py:98-179 | the name is never empty, always safe, and `UnknownCamera` when neither make nor model is given |
| CameraNames.AssembleSafe | chronicle/organize_photos.py:174-179 | assembling two safe labels gives a non-empty safe label |
| CameraNames.OrdinaryStart | chronicle/organize_photos.py:119-128 | a word that does not start with `i` or `d` in either case is capitalised |
| CameraNames.SonyAliasExample | chronicle/organize_photos.py:146-147 | the model `ILCE_7M3` becomes `A7III` |
| CameraNames.CleanWordA7III | chronicle/organize_photos.py:119-128 | the word `A7III` is cleaned as `A7iii` |
| CameraNames.CleanWordIphone | chronicle/organize_photos.py:119-122 | the brand word `iPhone` is cleaned as `Iphone` |
| CameraNames.AssembleParts | chronicle/organize_photos.py:174-179 | the name starts with the make (ignoring case), ends with the model, is the bare model exactly when the model already starts with the make, and is `UnknownCamera` when both are empty |
| Metadata.DateTaken | chronicle/organize_photos.py:74-95 | definition of `get_date_taken`; specified by `Metadata.VideoDateIsMtime`, `Metadata.OriginalDateWins`, `Metadata.DateTimeWhenNoOriginal` and `Metadata.BadOriginalSkipsDateTime` |
| Metadata.PromptForMetadata | chronicle/organize_photos.py:244-291 | definition; specified by `Metadata.PromptedCameraSafe`, `Metadata.PromptedYearValid`, `Metadata.PromptedMonthValid` and `Metadata.PromptedDateDefined` |
| Metadata.PromptedDate | chronicle/organize_photos.py:448-455 | definition of the `try` block; specified by `Metadata.PromptedDateDefined` |
| Metadata.Resolve | chronicle/organize_photos.py:424-481 | definition of one first-pass step; specified by `Metadata.ResolvedRecordWellFormed`, `Metadata.MissingCounters`, `Metadata.PromptsOnlyForMissing`, `Metadata.PromptedDateUsed` and `Metadata.RejectedDateStaysUnknown` |
| Metadata.MakeDate | chronicle/organize_photos.py:452 | `datetime(year, month, 1)` succeeds exactly for year 1..9999 and month 1..12 |
| Metadata.VideoDateIsMtime | chronicle/organize_photos.py:79-95 | a video's date is its modification time |
| Metadata.OriginalDateWins | chronicle/organize_photos.py:82-86 | a parsable non-empty `DateTimeOriginal` is the date of an image |
| Metadata.DateTimeWhenNoOriginal | chronicle/organize_photos.py:82-86 | without `DateTimeOriginal`, a parsable `DateTime` is the date |
| Metadata.BadOriginalSkipsDateTime | chronicle/organize_photos.py:82-93 | an unparsable `DateTimeOriginal` falls back to the modification time, never to `DateTime` |
| Metadata.CameraOf | chronicle/organize_photos.py:182-201 | a file's camera is non-empty and safe, and `UnknownCamera` for videos |
| Metadata.PromptedYearValid | chronicle/organize_photos.py:259-273 | a prompted year is kept exactly when it parses to 1900..2100, as four digits that parse back |
| Metadata.PromptedMonthValid | chronicle/organize_photos.py:275-289 | a prompted month is kept exactly when it parses to 1..12, as that month's label |
| Metadata.PromptedDateDefined | chronicle/organize_photos.py:446-455 | accepted prompt answers always build a date with the answered year and month, so the `except` cannot fire |
| Metadata.Settle | chronicle/organize_photos.py:434-463 | only a missing camera or date is replaced; interactive mode takes the prompted camera for a missing one and never counts a missing camera, and a rejected year or month leaves the date missing; non-interactive mode keeps both and counts what is missing |
| Metadata.LabelsWellFormed | chronicle/organize_photos.py:465-471 | year and month labels are well formed, unknown exactly when there is no date, and the year label parses back to the year |
| Metadata.PromptedCameraSafe | chronicle/organize_photos.py:252-257 | a prompted camera is non-empty and safe |
| Metadata.SettleKeepsSafe | chronicle/organize_photos.py:440-444 | settling keeps the camera non-empty and safe |
| Metadata.ResolvedRecordWellFormed | chronicle/organize_photos.py:424-481 | a file record has well-formed labels (year unknown exactly when month unknown), a safe camera, its category and its stem |
| Metadata.MissingCounters | chronicle/organize_photos.py:428-463 | which of the no-EXIF, no-date and no-camera counters a file raises, in both modes |
| Metadata.PromptsOnlyForMissing | chronicle/organize_photos.py:438-447 | a known camera and a known date are kept; non-interactive mode keeps both as found |
| Metadata.RejectedDateStaysUnknown | chronicle/organize_photos.py:446-463 | a missing date with a rejected year or month answer is filed under `UnknownYear`/`UnknownMonth` and counted |
| Metadata.LabelsPlain | chronicle/organize_photos.py:465-471 | year and month labels are ordinary path segments: never empty, `.` or `..` |
| Metadata.PromptedDateUsed | chronicle/organize_photos.py:446-452 | a missing date answered with a valid year and month is filed under exactly them and is not counted |
| Grouping.LastByStem | chronicle/organize_photos.py:487-488 | definition; specified by `Grouping.LastByStemKeys` and `Grouping.LastByStemLast` |
| Grouping.LastByStemKeys | chronicle/organize_photos.py:487-488 | the RAW (JPG) map has a key exactly for each lower-cased stem of a RAW (JPG) file |
| Grouping.LastByStemLast | chronicle/organize_photos.py:487-488 | the map holds the last file with that stem: the dict comprehension keeps the later entry |
| Grouping.CountRawJpgPairs | chronicle/organize_photos.py:486-498 | the pair count is the number of stems present in both maps whose files share camera, year and month |
| Grouping.CountPairs | chronicle/organize_photos.py:490-498 | the loop over the RAW keys counts exactly the paired stems |
| Grouping.PairsBounded | chronicle/organize_photos.py:486-498 | there are no more pairs than RAW stems or JPG stems |
| Grouping.OtherFilesDoNotPair | chronicle/organize_photos.py:486-488 | a video or other file does not change the pairs |
| Grouping.KeySeq | chronicle/organize_photos.py:503 | each record's `(camera, year, month)` key, in order |
| Grouping.GroupOrderSpec | chronicle/organize_photos.py:500-507 | the groups are visited once each, exactly for the keys that occur |
| Grouping.GroupOrderAppend | chronicle/organize_photos.py:501-504 | a new key goes last; a known key keeps the order |
| Grouping.MembersCount | chronicle/organize_photos.py:501-504 | a group holds every record with its key, as often as it occurs, and nothing else |
| Grouping.MembersNonEmpty | chronicle/organize_photos.py:501-504 | a group is non-empty exactly when some record has its key |
| Grouping.FlattenAppend | chronicle/organize_photos.py:501-504 | one more record adds it to exactly its own group |
| Grouping.FlattenSnoc | chronicle/organize_photos.py:507 | visiting one more group appends its members |
| Grouping.GroupsPartition | chronicle/organize_photos.py:500-507 | the groups, in visiting order, hold exactly the records: a permutation |
| Grouping.GroupFiles | chronicle/organize_photos.py:500-504 | the grouping loop builds the key order and each key's members |
| Grouping.NeedsSeparation | chronicle/organize_photos.py:509-512 | definition; specified by `Grouping.VideoGroupSeparated` and `Grouping.FolderLayout` |
| Grouping.BaseFolder | chronicle/organize_photos.py:518-530 | definition; specified by `Grouping.FolderLayout` and `Grouping.FolderSegments` |
| Grouping.FolderFor | chronicle/organize_photos.py:532-536 | definition; specified by `Grouping.FolderLayout` and `Grouping.FolderSegments` |
| Grouping.FolderLayout | chronicle/organize_photos.py:518-536 | the folder is below the destination, follows the scheme (an unknown scheme falls back to camera/year/month; an empty or `.` camera adds no segment), holds the camera label in every scheme but year/month, and adds a type subfolder exactly when separating a JPG/RAW/VIDEO file |
| Grouping.FolderSegments | chronicle/organize_photos.py:518-536 | below the destination no folder segment is empty or `.`, and `..` only when it is the camera label |
| Grouping.VideoGroupSeparated | chronicle/organize_photos.py:509-512 | with separation on, any group holding a video is separated |
| Placement.Candidate | chronicle/organize_photos.py:300-304 | definition of `stem_i.suffix`; specified by `Placement.CandidateInjective` and `Placement.FreeIndexFrom` |
| Placement.CandidateInjective | chronicle/organize_photos.py:304 | different counters give different candidate names |
| Placement.CandidatesBelowGrow | chronicle/organize_photos.py:303-307 | each taken candidate shrinks the set still to be tried, so the search ends |
| Placement.FreeIndexFrom | chronicle/organize_photos.py:302-307 | the first free counter from `i`: every counter before it is taken |
| Placement.UniqueTarget | chronicle/organize_photos.py:294-307 | the target itself if free, otherwise the first free `stem_i.suffix`; never an existing path; same folder |
| Placement.MergedLedger | chronicle/organize_photos.py:325-347 | definition; specified by `Placement.MergedLedgerSpec` |
| Placement.MergedLedgerSpec | chronicle/organize_photos.py:325-347 | the merge keeps old entries, new entries win, an unreadable file is replaced, and a non-object file is left alone |
| Placement.FileSystem.GetUniqueTarget | chronicle/organize_photos.py:294-307 | the candidate loop returns the unique target |
| Placement.FileSystem.Transfer | chronicle/organize_photos.py:550-553 | a move removes the source and adds the target; a copy adds the target |
| Placement.FileSystem.SaveChecksumLog | chronicle/organize_photos.py:325-347 | the checksum file becomes the merged ledger when the write succeeds, and is unchanged otherwise |
| Placement.Place | chronicle/organize_photos.py:535-557 | the second-pass loop over a list of jobs gives one target per job |
| Placement.PlaceAppend | chronicle/organize_photos.py:540-553 | one more job: a unique target among the paths left by the earlier jobs, the transfer and the checksum entry |
| Placement.PlaceSnoc | chronicle/organize_photos.py:540-553 | the same step for a prefix of the jobs |
| Placement.CopyPlace | chronicle/organize_photos.py:553 | copying gives distinct new targets, and the paths afterwards are the old ones plus the targets |
| Placement.MovePrefix | chronicle/organize_photos.py:551 | moving distinct existing sources gives distinct targets that exist, never overwrites a source still to be moved |
| Placement.PlacedFolders | chronicle/organize_photos.py:540-541 | every file lands in the folder it was meant for |
| Placement.PlacedTargetsDistinct | chronicle/organize_photos.py:540-553 | targets are pairwise distinct and all exist afterwards; a copy never hits an existing path |
| Placement.PlacedLog | chronicle/organize_photos.py:543-548 | the checksum log holds only non-empty checksums of placed files, under their relative target paths, and every checksummed file |
| Placement.PlacedLogSound | chronicle/organize_photos.py:543-548 | every log entry is a non-empty checksum of the file placed at that relative path |
| Placement.RecordKey | chronicle/organize_photos.py:545-548 | an entry after one step is the new checksum at the new target or an older entry |
| Placement.PlacedLogComplete | chronicle/organize_photos.py:543-548 | every file with a non-empty checksum and a relative path has an entry |
| Settings.LoadedSettings | chronicle/settings.py:30-51 | definition of `load_settings`; specified by `Settings.LoadedSettingsSpec` |
| Settings.LoadedSettingsSpec | chronicle/settings.py:30-51 | a missing or unparseable file gives the defaults; a parsed file overrides the defaults and keeps the defaults it lacks and its own extra keys |
| Settings.SettingsStore.LoadSettings | chronicle/settings.py:30-51 | returns the loaded settings |
| Settings.SettingsStore.SaveSettings | chronicle/settings.py:54-71 | returns whether the write succeeded; the file holds the settings only then |
| Settings.SettingsStore.GetSetting | chronicle/settings.py:74-79 | the loaded value of the key, or the default when absent |
| Settings.SettingsStore.SetSetting | chronicle/settings.py:82-88 | read-modify-write: the file becomes the loaded settings with the key updated, if the write succeeds |
| Settings.SettingsStore.GetDefaultSource | chronicle/settings.py:91-94 | the stored source, or none when it is falsy |
| Settings.SettingsStore.GetDefaultDestination | chronicle/settings.py:97-100 | the stored destination, or none when it is falsy |
| Settings.SettingsStore.GetDefaultMoveFiles | chronicle/settings.py:103-105 | the loaded `default_move_files` |
| Settings.SettingsStore.GetOrganizationScheme | chronicle/settings.py:128-130 | the loaded `organization_scheme` (the key is always present after the merge) |
| Settings.SettingsStore.GetMonthFormat | chronicle/settings.py:133-135 | the loaded `month_format` |
| Settings.SettingsStore.GetSeparateFileTypes | chronicle/settings.py:138-140 | the loaded `separate_file_types` |
| Settings.SettingsStore.SetDefaultSource | chronicle/settings.py:108-110 | stores the path under `default_source` |
| Settings.SettingsStore.SetDefaultDestination | chronicle/settings.py:113-115 | stores the path under `default_destination` |
| Settings.SettingsStore.SetDefaultMoveFiles | chronicle/settings.py:118-120 | stores the flag under `default_move_files` |
| Settings.SettingsStore.SetSeparateFileTypes | chronicle/settings.py:159-161 | stores the flag under `separate_file_types` |
| Settings.SettingsStore.SetOrganizationScheme | chronicle/settings.py:143-148 | fails, changing nothing, exactly for a scheme outside the three valid ones; otherwise stores it |
| Settings.SettingsStore.SetMonthFormat | chronicle/settings.py:151-156 | fails, changing nothing, exactly for a format other than `full`/`number`; otherwise stores it |
| Settings.SettingsStore.ResetSettings | chronicle/settings.py:123-125 | the file holds the defaults if the write succeeds |
| Settings.StoredPath | chronicle/settings.py:91-100 | none exactly when the stored value is falsy |
| Settings.StoredPathSpec | chronicle/settings.py:91-100 | an empty stored path reads as none; a non-empty one reads as itself |
| Settings.SaveThenLoad | chronicle/settings.py:82-88 | after a set, loading gives the new value for that key and the old value for every other key |
| Settings.ResetThenLoad | chronicle/settings.py:123-125 | after a reset, loading gives exactly the defaults |
| Report.FormatDuration | chronicle/organize_photos.py:564-568 | definition; specified by `Report.DurationRoundTrip` |
| Report.DurationParts | chronicle/organize_photos.py:564-567 | hours, minutes below 60 and seconds below 60 add up to the elapsed seconds |
| Report.DurationRoundTrip | chronicle/organize_photos.py:564-568 | `HH:MM:SS` splits into three fields that parse back to the hours, minutes and seconds, the last two of two digits |
| Report.SortByCountDesc | chronicle/organize_photos.py:588 | definition of `sorted(…, key=count, reverse=True)`; specified by `Report.SortPermutation`, `Report.SortDescending` and `Report.SortStable` |
| Report.InsertPermutation | chronicle/organize_photos.py:588 | inserting adds exactly one entry |
| Report.SortPermutation | chronicle/organize_photos.py:588 | sorting by count is a permutation |
| Report.SortDescending | chronicle/organize_photos.py:588 | sorting with `reverse=True` gives counts from highest to lowest |
| Report.SortStable | chronicle/organize_photos.py:588 | the sort is stable: entries with equal counts keep their order |
| Report.HistogramSpec | chronicle/organize_photos.py:484 | the histogram lists each camera once, with its number of files |
| Report.CameraListSpec | chronicle/organize_photos.py:586-589 | the camera list is sorted by count, highest first, and lists every camera once with its count |
| Organizer.AsTextCompare | chronicle/organize_photos.py:519-527 | comparing a stored setting with a scheme name is comparing the stored value with that string |
| Organizer.ResolvedOptions | chronicle/organize_photos.py:382-388 | definition; specified by `Organizer.ResolvedOptionsSpec` |
| Organizer.ResolvedOptionsSpec | chronicle/organize_photos.py:382-388 | given options win; otherwise the settings are used, whose defaults are camera_year_month, full, and separation on |
| Organizer.LoadOptions | chronicle/organize_photos.py:382-388 | reads the missing options from the settings store |
| Organizer.Accepted | chronicle/organize_photos.py:417-422 | keeps only known-extension files of the walk |
| Organizer.AcceptedConcat | chronicle/organize_photos.py:417-422 | filtering a walk is filtering its parts in turn, so the walk order is kept |
| Organizer.AcceptedSingle | chronicle/organize_photos.py:417-422 | one file is kept exactly when its extension is known |
| Organizer.AcceptedComplete | chronicle/organize_photos.py:417-422 | every file with a known extension is kept |
| Organizer.ResolutionsSpec | chronicle/organize_photos.py:424-481 | each kept file is resolved on its own |
| Organizer.CountAppend | chronicle/organize_photos.py:432 | a counter goes up by one exactly for a file it applies to |
| Organizer.CountBound | chronicle/organize_photos.py:455-463 | no counter exceeds the number of files |
| Organizer.FirstPassStep | chronicle/organize_photos.py:417-422 | a kept file extends the first pass by its resolution; a skipped file changes nothing |
| Organizer.ResolveFile | chronicle/organize_photos.py:424-481 | the first-pass body for one kept file computes its resolution |
| Organizer.SummarizeAppend | chronicle/organize_photos.py:474-484 | one more file appends its record, raises the counters that apply, and counts its camera |
| Organizer.AddFile | chronicle/organize_photos.py:474-484 | the statistics update keeps the first-pass summary |
| Organizer.CollectFileInfo | chronicle/organize_photos.py:413-484 | the first-pass loop computes the records, counters and histogram of the kept files |
| Organizer.FirstPassRecords | chronicle/organize_photos.py:413-481 | one record per kept file, in walk order, with its path |
| Organizer.FirstPassCounts | chronicle/organize_photos.py:428-484 | counters are bounded by the kept files, interactive mode counts no missing camera, and the histogram counts every camera |
| Organizer.NoCameraCountInteractive | chronicle/organize_photos.py:438-463 | in interactive mode the no-camera counter stays zero |
| Organizer.TargetFor | chronicle/organize_photos.py:518-540 | definition; specified by `Organizer.TargetForBelow` and `Organizer.AllJobsTargets` |
| Organizer.AllJobsSources | chronicle/organize_photos.py:507-516 | the jobs' sources are the grouped records' paths, group by group |
| Organizer.AllJobsTargets | chronicle/organize_photos.py:507-541 | each job's target is its record's folder for its group, with the file's name |
| Organizer.TargetForBelow | chronicle/organize_photos.py:518-540 | every wanted target is below the destination |
| Organizer.PlaceFile | chronicle/organize_photos.py:514-555 | one file: unique target, checksum entry and transfer follow the placement function |
| Organizer.PlaceGroup | chronicle/organize_photos.py:507-557 | one group, with its separation decision, follows the placement function |
| Organizer.PlaceAll | chronicle/organize_photos.py:507-557 | the loop over the groups places every job and counts them |
| Organizer.SecondPass | chronicle/organize_photos.py:500-557 | grouping then placing gives the placement of all jobs |
| Organizer.JobsPermutation | chronicle/organize_photos.py:500-557 | every record is placed exactly once: the sources are a permutation of the records' paths |
| Organizer.JobsBelowDest | chronicle/organize_photos.py:518-547 | every placed file is below the destination, so `relative_to` succeeds |
| Organizer.DistinctDestinations | chronicle/organize_photos.py:535-553 | no two files share a target, every target exists, and a copy never overwrites |
| Organizer.ChecksumLogComplete | chronicle/organize_photos.py:543-548 | the log has an entry for every checksummed file, and only those |
| Organizer.PairsAtMostHalf | chronicle/organize_photos.py:486-498 | twice the pair count is at most the number of files |
| Organizer.StemMapsBoundedBy | chronicle/organize_photos.py:487-488 | the stem maps are no larger than the RAW and JPG file counts, which add up to at most all files |
| Organizer.ItemsOfPass | chronicle/organize_photos.py:588 | the items of the first pass's counter are the camera histogram |
| Organizer.LedgerAfter | chronicle/organize_photos.py:559-561 | definition; the checksum file is saved only when the log is not empty; specified through `Placement.MergedLedgerSpec` and `Organizer.OrganizePhotos` |
| Organizer.OrganizePhotos | chronicle/organize_photos.py:350-571 | a missing source fails and changes nothing; otherwise it returns the run's statistics, leaves the placed files and saves the checksum log when not empty |
| Organizer.PlaceAndReport | chronicle/organize_photos.py:486-571 | pairs, placement, checksum file and report figures after the first pass |
| Organizer.SummaryBounds | chronicle/organize_photos.py:403-571 | processed equals the kept files; counters and twice the pairs are at most that; interactive has no camera misses; the camera list is sorted and complete |
| Organizer.RunDestinationsDistinct | chronicle/organize_photos.py:413-557 | over a whole run no two kept files end at the same path and all exist afterwards |

## Left out

- File I/O is not executed. Instead:
  - The source tree is given as a sequence of files, each with its EXIF tags, modification
    time and prompt answers.
  - Whether the source is a directory is a parameter.
  - Whether writing the settings or checksum file succeeds is a parameter.
- `rglob` order, `Path.resolve` and `is_file`: the walk is the given sequence, in its order.
- The `is_file` skip itself is left out, because only files are given.
- PIL and EXIF decoding are left out: tags are a string map. The `bytes` decoding of Make and
  Model and non-string tag values are not modelled.
- `datetime.strptime` on EXIF dates is the `parse` parameter of a run, and so is its failure.
  Only the year and month of a date are kept.
- `os.path.getmtime` and `fromtimestamp` are a given optional date.
- `calculate_checksum` (SHA-256) is the `checksum` parameter, and a read error gives `""`.
- `time.time()` is a parameter. The elapsed seconds are taken as a natural number, because
  a clock going backwards is not modelled.
- `mkdir` and exceptions from `shutil.move`/`copy2` are left out. A transfer always succeeds.
- Printing is left out: the progress lines, the report text and the prompts' messages. The
  report's figures are returned instead, in `Organizer.Summary`.
- `main` and `argparse` are left out. They are not part of this model.
- `Text.Lower`, `Text.Upper` and `Text.Capitalize`: only ASCII letters change case, so
  non-ASCII case mappings are not modelled.
- `Numeric.DropUnderscores`: `int()` on non-ASCII digits is not modelled.
- `Text.IsUnicodeDigit` follows the digit table of Unicode 15.0, the one Python 3.12 uses.
  Other Python versions use slightly different tables.
- Paths use `/` between segments. Windows separators and drive letters are not modelled.
- Settings values that are JSON floats, arrays or objects keep only their truthiness. Integers
  are kept as integers.
  A settings file that is valid JSON but not an object is not modelled.
- `Settings.LoadedSettings` gives the defaults for every `Unparseable` file. That includes two
  kinds of file that make `load_settings` raise in the code: a file whose bytes do not decode
  as text (`UnicodeDecodeError`), and one holding an integer over Python's 4300-digit limit
  (`ValueError`). chronicle/settings.py:48 catches only `JSONDecodeError` and `IOError`.
- `LoadSettings` (`Settings.SettingsStore.LoadSettings`) returns the defaults for those two
  kinds of file too, so the model's getters, setters and `Organizer.LoadOptions` go on. In the
  code they raise, and so does `organize_photos` when it reads its options
  (chronicle/organize_photos.py:383-388).
- `Organizer.AsText`: a stored scheme or month format that is not a string behaves like `""`.
  It falls back to camera/year/month and to the full month format, just as any unknown string
  the code compares would.
- Partial writes of the JSON files are not modelled.
- The lemmas about the first pass take the extension set as a parameter.
  `Organizer.OrganizePhotos` uses the code's union of the photo, RAW and video sets.
- The docstring examples of `normalize_camera_name` are not proved whole. Only their steps
  are: the alias `ILCE_7M3` → `A7III` and the cleaning of single words (`A7III`, `iPhone`,
  any word without a Sony prefix).
- The file system is a set of lexical paths. A `..` camera label, which `clean` lets
  through, is not resolved against its parent. `Organizer.DistinctDestinations`,
  `Organizer.RunDestinationsDistinct`, `Organizer.JobsBelowDest` and the existence tests
  therefore speak of lexical paths. `Grouping.FolderSegments` shows that `..` can only come
  from the camera label. An empty or `.` label is dropped, as `pathlib` does
  (`Paths.Segment`). Symbolic links are not modelled.

## Notes

- Each dict comprehension of the pairing step keeps the last file for each lower-cased stem.
  The model does the same, in `Grouping.LastByStemLast`.
- Python's dictionary key order sets the order in which groups are visited. The same order
  is `Grouping.GroupOrder`.
