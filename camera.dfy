/** The camera-name normaliser: `normalize_camera_name` and its inner `clean`
    (chronicle/organize_photos.py). */
module CameraNames {
  import opened Wrappers
  import opened Text

  const UnknownCamera := "UnknownCamera"

  /** The corporate-suffix deletions at the start of `clean`, in the order it makes them
      (the matches are case-sensitive). */
  function RemoveNoise(s: string): string {
    var s := Replace(Replace(Replace(s, "Corporation", ""), "Inc.", ""), "Inc", "");
    Replace(Replace(Replace(s, "Company", ""), "Ltd.", ""), "Ltd", "")
  }

  const KnownBrands: seq<string> := ["iphone", "ipad", "dji", "gopro", "sony", "canon", "nikon",
    "fujifilm", "olympus", "panasonic", "pentax", "leica", "hasselblad"]

  /** The capitalisation `clean` applies to one whitespace-separated word. A known brand is
      capitalised, exactly as an ordinary word is; a Sony model code (`ilce-`/`dsc-` prefix)
      is upper-cased whole. */
  function CleanWord(part: string): string {
    var lower := Lower(part);
    if lower in KnownBrands then Capitalize(part)
    else if StartsWith(lower, "ilce-") || StartsWith(lower, "dsc-") then Upper(part)
    else Capitalize(part)
  }

  function CleanWords(parts: seq<string>): (r: seq<string>)
    ensures |r| == |parts|
    ensures forall k :: 0 <= k < |parts| ==> r[k] == CleanWord(parts[k])
    decreases |parts|
  {
    if |parts| == 0 then []
    else
      var init, last := CleanWords(parts[..|parts| - 1]), CleanWord(parts[|parts| - 1]);
      assert forall k :: 0 <= k < |parts| - 1 ==> parts[..|parts| - 1][k] == parts[k];
      init + [last]
  }

  /** The characters `clean` turns into underscores, in the order it replaces them. */
  const Separators: seq<char> := [' ', '/', '\\', '-']

  /** `s` after replacing each character of `chars`, in order, by an underscore. */
  function ReplaceEach(s: string, chars: seq<char>): string
    decreases |chars|
  {
    if |chars| == 0 then s
    else Replace(ReplaceEach(s, chars[..|chars| - 1]), [chars[|chars| - 1]], "_")
  }

  /** After the replacements none of the replaced characters is left. */
  lemma {:induction false} ReplaceEachRemoves(s: string, chars: seq<char>, c: char)
    requires c in chars && c != '_'
    ensures c !in ReplaceEach(s, chars)
    decreases |chars|
  {
    var prev := chars[..|chars| - 1];
    var last := chars[|chars| - 1];
    if c == last {
      ReplaceCharRemoves(ReplaceEach(s, prev), c, "_");
    } else {
      assert c in prev by { assert chars == prev + [last]; }
      ReplaceEachRemoves(s, prev, c);
      ReplaceKeepsOut(ReplaceEach(s, prev), [last], "_", c);
    }
  }

  predicate NoDoubleUnderscore(s: string) {
    forall i :: 0 <= i < |s| - 1 ==> !(s[i] == '_' && s[i + 1] == '_')
  }

  lemma NoDoubleIff(s: string)
    ensures NoDoubleUnderscore(s) <==> !Contains(s, "__")
  {
    ContainsIff(s, "__");
    if !NoDoubleUnderscore(s) {
      var i :| 0 <= i < |s| - 1 && s[i] == '_' && s[i + 1] == '_';
      assert s[i..i + 2] == "__";
      assert OccursAt(s, "__", i);
    }
    if exists i: nat :: OccursAt(s, "__", i) {
      var i: nat :| OccursAt(s, "__", i);
      assert s[i] == s[i..i + 2][0] && s[i + 1] == s[i..i + 2][1];
    }
  }

  /** Every run of underscores collapsed to one: the fixed point of `clean`'s
      `while "__" in s` loop, defined independently of it. */
  function Squeeze(s: string): (r: string)
    ensures |r| <= |s|
    ensures |s| > 0 ==> |r| > 0 && r[0] == s[0]
    decreases |s|
  {
    if |s| <= 1 then s
    else if s[0] == '_' && s[1] == '_' then Squeeze(s[1..])
    else [s[0]] + Squeeze(s[1..])
  }

  lemma SqueezeHead(c: char, x: string)
    requires |x| == 0 || !(c == '_' && x[0] == '_')
    ensures Squeeze([c] + x) == [c] + Squeeze(x)
  {
    if |x| > 0 {
      assert ([c] + x)[1..] == x;
    }
  }

  lemma {:induction false} SqueezeNoDouble(s: string)
    ensures NoDoubleUnderscore(Squeeze(s))
    decreases |s|
  {
    if |s| > 1 {
      SqueezeNoDouble(s[1..]);
    }
  }

  lemma {:induction false} SqueezeKeepsOut(s: string, c: char)
    requires c !in s
    ensures c !in Squeeze(s)
    decreases |s|
  {
    if |s| > 1 {
      assert c !in s[1..];
      SqueezeKeepsOut(s[1..], c);
    }
  }

  lemma {:induction false} SqueezeFixed(s: string)
    requires NoDoubleUnderscore(s)
    ensures Squeeze(s) == s
    decreases |s|
  {
    if |s| > 1 {
      SqueezeFixed(s[1..]);
      assert s == [s[0]] + s[1..];
    }
  }

  /** One pass of `s.replace("__", "_")` does not change what the loop converges to. */
  lemma {:induction false} SqueezeReplace(s: string)
    ensures Squeeze(Replace(s, "__", "_")) == Squeeze(s)
    decreases |s|
  {
    if |s| == 1 {
      assert Replace(s, "__", "_") == [s[0]] + Replace(s[1..], "__", "_");
    } else if |s| > 1 {
      if StartsWith(s, "__") {
        assert s[0] == '_' && s[1] == '_' by { assert s[..2] == "__"; }
        SqueezeUnderscoreReplace(s[2..]);
        assert s[1..] == "_" + s[2..];
      } else if s[0] == '_' {
        SqueezeUnderscoreReplace(s[1..]);
        assert s == "_" + s[1..];
      } else {
        SqueezeReplace(s[1..]);
        SqueezeHead(s[0], Replace(s[1..], "__", "_"));
        SqueezeHead(s[0], s[1..]);
        assert s == [s[0]] + s[1..];
      }
    }
  }

  /** The same, behind a leading underscore. */
  lemma {:induction false} SqueezeUnderscoreReplace(t: string)
    ensures Squeeze("_" + Replace(t, "__", "_")) == Squeeze("_" + t)
    decreases |t|
  {
    if |t| == 0 {
      assert "_" + Replace(t, "__", "_") == "_" + t;
    } else if StartsWith(t, "__") {
      assert t[0] == '_' && t[1] == '_' by { assert t[..2] == "__"; }
      SqueezeUnderscoreReplace(t[2..]);
      assert ("_" + ("_" + Replace(t[2..], "__", "_")))[1..] == "_" + Replace(t[2..], "__", "_");
      assert ("_" + t)[1..] == t;
      assert t[1..] == "_" + t[2..];
    } else if t[0] == '_' {
      assert Replace(t, "__", "_") == "_" + Replace(t[1..], "__", "_");
      SqueezeUnderscoreReplace(t[1..]);
      assert ("_" + ("_" + Replace(t[1..], "__", "_")))[1..] == "_" + Replace(t[1..], "__", "_");
      assert ("_" + t)[1..] == t;
      assert t == "_" + t[1..];
    } else {
      var rest := Replace(t[1..], "__", "_");
      assert Replace(t, "__", "_") == [t[0]] + rest;
      SqueezeReplace(t[1..]);
      SqueezeHead(t[0], rest);
      SqueezeHead('_', [t[0]] + rest);
      SqueezeHead(t[0], t[1..]);
      assert t == [t[0]] + t[1..];
      SqueezeHead('_', t);
    }
  }

  /** The shape of a label `clean` produces: no space, slash, backslash or hyphen, no doubled
      underscore, and no underscore at either end. */
  predicate SafeLabel(s: string) {
    && ' ' !in s && '/' !in s && '\\' !in s && '-' !in s
    && NoDoubleUnderscore(s)
    && (|s| > 0 ==> s[0] != '_' && s[|s| - 1] != '_')
  }

  /** The part of `clean` after the words are rejoined: separators to underscores, runs of
      underscores collapsed, and underscores stripped from both ends. */
  function Finish(joined: string): string {
    StripChar(Squeeze(ReplaceEach(joined, Separators)), '_')
  }

  /** The whole of `clean` as a formula over its successive stages. */
  function CleanText(raw: string): string {
    var words := SplitWords(StripSpace(RemoveNoise(StripSpace(raw))));
    Finish(Join(" ", CleanWords(words)))
  }

  /** Whatever it is given, the last stage of `clean` returns a safe label. */
  lemma FinishSafe(joined: string)
    ensures SafeLabel(Finish(joined))
  {
    var t := ReplaceEach(joined, Separators);
    SeparatorsRemoved(joined);
    var q := Squeeze(t);
    SqueezeKeepsOut(t, ' ');
    SqueezeKeepsOut(t, '/');
    SqueezeKeepsOut(t, '\\');
    SqueezeKeepsOut(t, '-');
    SqueezeNoDouble(t);
    StripKeepsSafe(q);
  }

  lemma SeparatorsRemoved(joined: string)
    ensures var t := ReplaceEach(joined, Separators);
      ' ' !in t && '/' !in t && '\\' !in t && '-' !in t
  {
    ReplaceEachRemoves(joined, Separators, ' ');
    ReplaceEachRemoves(joined, Separators, '/');
    ReplaceEachRemoves(joined, Separators, '\\');
    ReplaceEachRemoves(joined, Separators, '-');
  }

  lemma StripKeepsSafe(q: string)
    requires ' ' !in q && '/' !in q && '\\' !in q && '-' !in q
    requires NoDoubleUnderscore(q)
    ensures SafeLabel(StripChar(q, '_'))
  {
    var r := StripChar(q, '_');
    var i, j :| 0 <= i <= j <= |q| && r == q[i..j];
    SliceKeepsSafe(q, i, j);
  }

  /** A slice of a text keeps out what the text keeps out, and has no doubled underscore if
      the text has none. */
  lemma SliceKeepsSafe(q: string, i: nat, j: nat)
    requires i <= j <= |q|
    requires ' ' !in q && '/' !in q && '\\' !in q && '-' !in q
    requires NoDoubleUnderscore(q)
    ensures var r := q[i..j];
      ' ' !in r && '/' !in r && '\\' !in r && '-' !in r && NoDoubleUnderscore(r)
  {
    var r := q[i..j];
    forall k | 0 <= k < |r| - 1
      ensures !(r[k] == '_' && r[k + 1] == '_')
    {
      assert r[k] == q[i + k] && r[k + 1] == q[i + k + 1];
    }
    forall x | x in r
      ensures x in q
    {
      var k :| 0 <= k < |r| && r[k] == x;
      assert q[i + k] == x;
    }
  }

  lemma CleanTextSafe(raw: string)
    ensures SafeLabel(CleanText(raw))
  {
    var words := SplitWords(StripSpace(RemoveNoise(StripSpace(raw))));
    FinishSafe(Join(" ", CleanWords(words)));
  }

  /** The capitalisation loop of `clean`, over the words of the stripped text. */
  method CleanParts(parts: seq<string>) returns (cleanedParts: seq<string>)
    ensures cleanedParts == CleanWords(parts)
  {
    cleanedParts := [];
    for k := 0 to |parts|
      invariant cleanedParts == CleanWords(parts[..k])
    {
      var cleaned := CleanPart(parts[k]);
      assert parts[..k + 1][..k] == parts[..k];
      cleanedParts := cleanedParts + [cleaned];
    }
    assert parts[..|parts|] == parts;
  }

  /** One word of the capitalisation loop: known brands and other words capitalised, Sony
      model codes upper-cased. */
  method CleanPart(part: string) returns (cleaned: string)
    ensures cleaned == CleanWord(part)
  {
    var partLower := Lower(part);
    if partLower in KnownBrands {
      cleaned := Capitalize(part);
    } else if StartsWith(partLower, "ilce-") || StartsWith(partLower, "dsc-") {
      cleaned := Upper(part);
    } else {
      cleaned := Capitalize(part);
    }
  }

  /** `clean(s)` (chronicle/organize_photos.py, the inner function of `normalize_camera_name`). */
  method Clean(raw: string) returns (s: string)
    ensures s == CleanText(raw)
    ensures SafeLabel(s)
  {
    s := StripSpace(raw);
    s := Replace(Replace(Replace(s, "Corporation", ""), "Inc.", ""), "Inc", "");
    s := Replace(Replace(Replace(s, "Company", ""), "Ltd.", ""), "Ltd", "");
    s := StripSpace(s);
    var parts := SplitWords(s);
    var cleanedParts := CleanParts(parts);
    s := Join(" ", cleanedParts);
    ghost var joined := s;
    s := ReplaceSeparators(s);
    s := CollapseUnderscores(s);
    s := StripChar(s, '_');
    assert s == Finish(joined);
    CleanTextSafe(raw);
  }

  /** The loop of `clean` that turns every separator into an underscore. */
  method ReplaceSeparators(joined: string) returns (s: string)
    ensures s == ReplaceEach(joined, Separators)
  {
    s := joined;
    for k := 0 to |Separators|
      invariant s == ReplaceEach(joined, Separators[..k])
    {
      assert Separators[..k + 1][..k] == Separators[..k];
      s := Replace(s, [Separators[k]], "_");
    }
    assert Separators[..|Separators|] == Separators;
  }

  /** The loop of `clean` that replaces doubled underscores until none is left. */
  method CollapseUnderscores(separated: string) returns (s: string)
    ensures s == Squeeze(separated)
  {
    s := separated;
    while Contains(s, "__")
      invariant Squeeze(s) == Squeeze(separated)
      decreases |s|
    {
      ReplaceShrinks(s, "__", "_");
      SqueezeReplace(s);
      s := Replace(s, "__", "_");
    }
    NoDoubleIff(s);
    SqueezeFixed(s);
  }

  /** The part test of the iPhone alias: it mentions IPHONE in any case and holds a digit. */
  predicate IsIphonePart(part: string) {
    Contains(Upper(part), "IPHONE") && AnyDigit(part)
  }

  /** The index of the first part the iPhone alias accepts, or `|parts|` when none does. */
  function FirstIphoneIndex(parts: seq<string>): (n: nat)
    ensures n <= |parts|
    ensures forall k :: 0 <= k < n ==> !IsIphonePart(parts[k])
    ensures n < |parts| ==> IsIphonePart(parts[n])
    decreases |parts|
  {
    if |parts| == 0 then 0
    else if IsIphonePart(parts[0]) then 0
    else 1 + FirstIphoneIndex(parts[1..])
  }

  /** The alias table `normalize_camera_name` applies to the cleaned model, tried in order.
      The first test repeats the same substring twice, as `normalize_camera_name` does. */
  function AliasModel(model: string): string {
    match TableAlias(model)
    case Some(alias) => alias
    case None => if Contains(Upper(model), "IPHONE") then IphoneAlias(model) else model
  }

  /** The Sony and DJI rows of the alias table; every alias they give is a safe label. */
  function TableAlias(model: string): (r: Option<string>)
    ensures r.Some? ==> SafeLabel(r.value) && r.value != ""
  {
    if Contains(model, "ILCE_7M3") || Contains(model, "ILCE_7M3") then Some("A7III")
    else if Contains(model, "ILCE_7M4") then Some("A7IV")
    else if Contains(model, "ILCE_7RM3") || Contains(model, "ILCE_7RM3A") then Some("A7RIII")
    else if Contains(model, "ILCE_7RM4") then Some("A7RIV")
    else if Contains(model, "ILCE_7RM5") then Some("A7RV")
    else if Contains(model, "ILCE_9") then Some("A9")
    else if Contains(model, "ILCE_1") then Some("A1")
    else if Contains(Upper(model), "MAVIC") && Contains(model, "3") then Some("Mavic3")
    else if Contains(Upper(model), "MAVIC") && Contains(model, "2") then Some("Mavic2")
    else None
  }

  /** The iPhone row: the first underscore-separated part naming an iPhone with a digit, with
      its underscores removed; the model itself when there is none. */
  function IphoneAlias(model: string): string {
    var parts := SplitOn(model, '_');
    var n := FirstIphoneIndex(parts);
    if n < |parts| then Replace(parts[n], "_", "") else model
  }

  /** The alias table, with its loop over the underscore-separated parts of an iPhone model. */
  method NormalizeModel(model: string) returns (r: string)
    ensures r == AliasModel(model)
  {
    r := model;
    if Contains(r, "ILCE_7M3") || Contains(r, "ILCE_7M3") {
      r := "A7III";
    } else if Contains(r, "ILCE_7M4") {
      r := "A7IV";
    } else if Contains(r, "ILCE_7RM3") || Contains(r, "ILCE_7RM3A") {
      r := "A7RIII";
    } else if Contains(r, "ILCE_7RM4") {
      r := "A7RIV";
    } else if Contains(r, "ILCE_7RM5") {
      r := "A7RV";
    } else if Contains(r, "ILCE_9") {
      r := "A9";
    } else if Contains(r, "ILCE_1") {
      r := "A1";
    } else if Contains(Upper(r), "MAVIC") && Contains(r, "3") {
      r := "Mavic3";
    } else if Contains(Upper(r), "MAVIC") && Contains(r, "2") {
      r := "Mavic2";
    } else if Contains(Upper(r), "IPHONE") {
      r := IphoneModel(model);
    }
  }

  /** The loop over the underscore-separated parts of an iPhone model: it stops at the first
      part that names an iPhone with a digit. */
  method IphoneModel(model: string) returns (r: string)
    ensures r == IphoneAlias(model)
  {
    r := model;
    var parts := SplitOn(model, '_');
    var k := 0;
    while k < |parts| && !(Contains(Upper(parts[k]), "IPHONE") && AnyDigit(parts[k]))
      invariant 0 <= k <= |parts|
      invariant forall m :: 0 <= m < k ==> !IsIphonePart(parts[m])
    {
      k := k + 1;
    }
    FirstIphoneIndexIs(parts, k);
    if k < |parts| {
      r := Replace(parts[k], "_", "");
    }
  }

  /** The first accepted part is the one no earlier part precedes. */
  lemma {:induction false} FirstIphoneIndexIs(parts: seq<string>, k: nat)
    requires k <= |parts|
    requires forall m :: 0 <= m < k ==> !IsIphonePart(parts[m])
    requires k < |parts| ==> IsIphonePart(parts[k])
    ensures FirstIphoneIndex(parts) == k
    decreases k
  {
    if k > 0 {
      FirstIphoneIndexIs(parts[1..], k - 1);
    }
  }

  /** The alias table keeps a safe label safe, and keeps it non-empty. */
  lemma AliasModelSafe(model: string)
    requires SafeLabel(model)
    ensures SafeLabel(AliasModel(model))
    ensures model != "" <==> AliasModel(model) != ""
  {
    if TableAlias(model).None? && Contains(Upper(model), "IPHONE") {
      var parts := SplitOn(model, '_');
      var n := FirstIphoneIndex(parts);
      if n < |parts| {
        IphonePartSafe(model, parts[n]);
      }
    }
  }

  /** The underscore-free part of a safe model that names an iPhone is a safe, non-empty
      label. */
  lemma IphonePartSafe(model: string, p: string)
    requires SafeLabel(model)
    requires p in SplitOn(model, '_') && Contains(Upper(p), "IPHONE")
    ensures SafeLabel(Replace(p, "_", "")) && Replace(p, "_", "") != ""
  {
    assert '_' !in p;
    ContainsChar(p, '_');
    ReplaceAbsent(p, "_", "");
    assert forall c :: c in p ==> c in model;
    assert |p| > 0 by { assert |Upper(p)| >= 6; }
  }

  /** The assembly at the end of `normalize_camera_name`: the model alone when it already
      starts with the make (ignoring case), otherwise make and model joined by an underscore,
      falling back to whichever is present and then to `UnknownCamera`. */
  function Assemble(make: string, model: string): string {
    if make != "" && model != "" then
      if StartsWith(Lower(model), Lower(make)) then model else make + "_" + model
    else if make != "" then make
    else if model != "" then model
    else UnknownCamera
  }

  /** Python truthiness of an optional EXIF string. */
  predicate Given(o: Option<string>) {
    o.Some? && o.value != ""
  }

  function CleanedOrEmpty(o: Option<string>): string {
    if Given(o) then CleanText(o.value) else ""
  }

  /** `normalize_camera_name(raw_make, raw_model)` as a formula. */
  function CameraName(rawMake: Option<string>, rawModel: Option<string>): string {
    if !Given(rawMake) && !Given(rawModel) then UnknownCamera
    else Assemble(CleanedOrEmpty(rawMake), AliasModel(CleanedOrEmpty(rawModel)))
  }

  /** `normalize_camera_name(raw_make, raw_model)`. */
  method NormalizeCameraName(rawMake: Option<string>, rawModel: Option<string>) returns (r: string)
    ensures r == CameraName(rawMake, rawModel)
    ensures r != "" && SafeLabel(r)
  {
    CameraNameShape(rawMake, rawModel);
    if !Given(rawMake) && !Given(rawModel) {
      return UnknownCamera;
    }
    var make := "";
    if Given(rawMake) {
      make := Clean(rawMake.value);
    }
    var model := "";
    if Given(rawModel) {
      model := Clean(rawModel.value);
    }
    var modelNormalized := NormalizeModel(model);
    r := AssembleName(make, modelNormalized);
  }

  /** The end of `normalize_camera_name`, with its early returns. */
  method AssembleName(make: string, model: string) returns (r: string)
    ensures r == Assemble(make, model)
  {
    if make != "" && model != "" {
      if StartsWith(Lower(model), Lower(make)) {
        return model;
      }
      return make + "_" + model;
    }
    if make != "" {
      r := make;
    } else if model != "" {
      r := model;
    } else {
      r := UnknownCamera;
    }
  }

  lemma JoinSafe(a: string, b: string)
    requires SafeLabel(a) && SafeLabel(b) && a != "" && b != ""
    ensures SafeLabel(a + "_" + b)
  {
    var r := a + "_" + b;
    forall i | 0 <= i < |r| - 1
      ensures !(r[i] == '_' && r[i + 1] == '_')
    {
      if i < |a| - 1 {
        assert r[i] == a[i] && r[i + 1] == a[i + 1];
      } else if i == |a| - 1 {
        assert r[i] == a[|a| - 1];
      } else if i == |a| {
        assert r[i + 1] == b[0];
      } else {
        assert r[i] == b[i - |a| - 1] && r[i + 1] == b[i - |a|];
      }
    }
  }

  /** A camera name is never empty and always a safe folder label; it is `UnknownCamera` when
      neither make nor model is given. */
  lemma CameraNameShape(rawMake: Option<string>, rawModel: Option<string>)
    ensures CameraName(rawMake, rawModel) != ""
    ensures SafeLabel(CameraName(rawMake, rawModel))
    ensures !Given(rawMake) && !Given(rawModel) ==> CameraName(rawMake, rawModel) == UnknownCamera
  {
    var make := CleanedOrEmpty(rawMake);
    var model := CleanedOrEmpty(rawModel);
    if Given(rawMake) { CleanTextSafe(rawMake.value); }
    if Given(rawModel) { CleanTextSafe(rawModel.value); }
    AliasModelSafe(model);
    AssembleSafe(make, AliasModel(model));
  }

  /** Assembling two safe labels gives a safe, non-empty label. */
  lemma AssembleSafe(make: string, model: string)
    requires SafeLabel(make) && SafeLabel(model)
    ensures Assemble(make, model) != "" && SafeLabel(Assemble(make, model))
  {
    if make != "" && model != "" {
      if !StartsWith(Lower(model), Lower(make)) {
        JoinSafe(make, model);
      }
    } else if make == "" && model == "" {
      UnknownCameraSafe();
    }
  }

  lemma UnknownCameraSafe()
    ensures SafeLabel(UnknownCamera)
  {
    assert NoDoubleUnderscore(UnknownCamera);
  }

  /** How make and model show in an assembled name: a non-empty make is its prefix (ignoring
      case), a non-empty model its suffix, and the make is dropped exactly when the model
      already starts with it. */
  lemma AssembleParts(make: string, model: string)
    ensures var r := Assemble(make, model);
      && (make != "" ==> StartsWith(Lower(r), Lower(make)))
      && (model != "" ==> EndsWith(r, model))
      && (make != "" && model != "" ==> (r == model <==> StartsWith(Lower(model), Lower(make))))
      && (make == "" && model == "" ==> r == UnknownCamera)
  {
    var r := Assemble(make, model);
    if make != "" && model != "" && !StartsWith(Lower(model), Lower(make)) {
      assert r == make + "_" + model;
      assert Lower(r)[..|make|] == Lower(make);
      assert r[|r| - |model|..] == model;
    }
  }

  /** A word that does not start with `i` or `d` in either case carries no Sony prefix, so
      it is capitalised. */
  lemma OrdinaryStart(w: string)
    requires |w| > 0 && ToLower(w[0]) != 'i' && ToLower(w[0]) != 'd'
    ensures CleanWord(w) == Capitalize(w)
  {
    var lower := Lower(w);
    assert lower[0] != 'i' && lower[0] != 'd';
    assert |lower| < 5 || lower[..5][0] == lower[0];
    assert |lower| < 4 || lower[..4][0] == lower[0];
    assert !StartsWith(lower, "ilce-") && !StartsWith(lower, "dsc-");
  }

  /** The alias table turns the cleaned model `ILCE_7M3` into `A7III`. */
  lemma SonyAliasExample()
    ensures AliasModel("ILCE_7M3") == "A7III"
  {
    assert StartsWith("ILCE_7M3", "ILCE_7M3");
  }

  /** Cleaned as a word, the alias `A7III` becomes `A7iii`: `normalize_camera_name` does not
      return its own output unchanged. */
  lemma CleanWordA7III()
    ensures CleanWord("A7III") == "A7iii"
  {
    var w := "A7III";
    assert w[0] == 'A';
    OrdinaryStart(w);
    var r := Capitalize(w);
    assert r[0] == 'A' && r[1] == '7' && r[2] == 'i' && r[3] == 'i' && r[4] == 'i';
  }

  /** The brand word `iPhone` is capitalised to `Iphone`, so that spelling is not kept. */
  lemma CleanWordIphone()
    ensures CleanWord("iPhone") == "Iphone"
  {
    assert Lower("iPhone") == "iphone";
    assert KnownBrands[0] == "iphone";
  }
}
