/**
 * Media references of the global media store: the filename sanitiser, the
 * generated names of base media and canvas overlays, the classification of
 * references by prefix and directory, and the store's directory layout.
 */
module MediaRefs {
  import opened Wrappers
  import opened Text

  // ------------------------------------------------------------ sanitising

  /**
   * The characters of the raw string literal `<>:"/\n?*\\` that the sanitiser
   * replaces. Being a raw string, it holds a backslash and the letter `n`
   * rather than a newline.
   */
  predicate IsBadChar(c: char)
  {
    c == '<' || c == '>' || c == ':' || c == '"' || c == '/' || c == '\\' || c == 'n' || c == '?' || c == '*'
  }

  /** The `str.translate` step: every bad character becomes '_'. */
  function Translate(s: string): (r: string)
    ensures |r| == |s|
    ensures forall i :: 0 <= i < |s| ==> r[i] == if IsBadChar(s[i]) then '_' else s[i]
  {
    if s == [] then [] else [if IsBadChar(s[0]) then '_' else s[0]] + Translate(s[1..])
  }

  /** No two adjacent underscores. */
  predicate NoDoubleUnderscore(s: string)
  {
    forall i :: 0 <= i < |s| - 1 ==> s[i] != '_' || s[i + 1] != '_'
  }

  /** Each run of underscores shrunk to a single one: what the `while "__" in s` loop reaches. */
  function Collapse(s: string): (r: string)
    ensures |r| <= |s|
    ensures |s| > 0 ==> |r| > 0 && r[0] == s[0]
    ensures forall i :: 0 <= i < |r| ==> r[i] in s
    ensures NoDoubleUnderscore(r)
  {
    if |s| < 2 then s
    else if s[0] == '_' && s[1] == '_' then Collapse(s[1..])
    else [s[0]] + Collapse(s[1..])
  }

  /** What `sanitize_filename` returns for the text `s` (`None` is passed as ""). */
  function SanitizedName(s: string): string
  {
    StripChar(Collapse(Translate(Strip(s))), '_')
  }

  lemma {:induction false} ContainsDouble(s: string)
    ensures Contains(s, "__") <==> !NoDoubleUnderscore(s)
  {
    if Contains(s, "__") {
      var i := ContainsWitness(s, "__");
      assert s[i] == s[i..i + 2][0] && s[i + 1] == s[i..i + 2][1];
    }
    if !NoDoubleUnderscore(s) {
      var i :| 0 <= i < |s| - 1 && s[i] == '_' && s[i + 1] == '_';
      assert s[i..i + 2] == "__";
      ContainsAt(s, "__", i);
    }
  }

  lemma {:induction false} ReplaceDoubleShrinks(s: string)
    ensures |Replace(s, "__", "_")| <= |s|
    ensures Contains(s, "__") ==> |Replace(s, "__", "_")| < |s|
  {
    if s != [] {
      if StartsWith(s, "__") {
        ReplaceDoubleShrinks(s[2..]);
      } else {
        ReplaceDoubleShrinks(s[1..]);
      }
    }
  }

  lemma CollapseCons(c: char, x: string)
    ensures Collapse([c] + x) == if c == '_' && |x| > 0 && x[0] == '_' then Collapse(x) else [c] + Collapse(x)
  {
    assert ([c] + x)[1..] == x;
  }

  /** One pass of `s.replace("__", "_")` does not change what the loop converges to. */
  lemma {:induction false} CollapseReplaceDouble(s: string)
    ensures Collapse(Replace(s, "__", "_")) == Collapse(s)
    decreases |s|
  {
    if s != [] {
      if StartsWith(s, "__") {
        CollapseReplaceDouble(s[2..]);
        CollapseReplaceAtDouble(s);
      } else {
        CollapseReplaceDouble(s[1..]);
        CollapseReplaceAtOther(s);
      }
    }
  }

  lemma CollapseReplaceAtDouble(s: string)
    requires StartsWith(s, "__")
    requires Collapse(Replace(s[2..], "__", "_")) == Collapse(s[2..])
    ensures Collapse(Replace(s, "__", "_")) == Collapse(s)
  {
    var t := s[2..];
    var rt := Replace(t, "__", "_");
    ReplaceAtDouble(s);
    CollapseAtDouble(s);
    CollapseCons('_', rt);
    CollapseCons('_', t);
  }

  lemma ReplaceAtDouble(s: string)
    requires StartsWith(s, "__")
    ensures Replace(s, "__", "_") == ['_'] + Replace(s[2..], "__", "_")
  {
    assert "_" == ['_'];
  }

  lemma CollapseAtDouble(s: string)
    requires StartsWith(s, "__")
    ensures Collapse(s) == Collapse(['_'] + s[2..])
  {
    assert s[..2] == "__";
    assert s[1..] == ['_'] + s[2..];
  }

  lemma CollapseReplaceAtOther(s: string)
    requires s != [] && !StartsWith(s, "__")
    requires Collapse(Replace(s[1..], "__", "_")) == Collapse(s[1..])
    ensures Collapse(Replace(s, "__", "_")) == Collapse(s)
  {
    var t := s[1..];
    var rt := Replace(t, "__", "_");
    assert Replace(s, "__", "_") == [s[0]] + rt;
    CollapseCons(s[0], rt);
    CollapseCons(s[0], t);
    assert s == [s[0]] + t;
  }

  /** Without a double underscore there is nothing left to collapse. */
  lemma {:induction false} CollapseFixed(s: string)
    requires NoDoubleUnderscore(s)
    ensures Collapse(s) == s
  {
    if |s| >= 2 {
      CollapseFixed(s[1..]);
    }
  }

  /**
   * `sanitize_filename` (a while loop rewriting `s`): the loop reaches the
   * collapsed form of the translated, stripped input.
   */
  method SanitizeFilename(name: string) returns (r: string)
    ensures r == SanitizedName(name)
    ensures name == "" ==> r == ""
  {
    var s := Translate(Strip(name));
    while Contains(s, "__")
      invariant Collapse(s) == Collapse(Translate(Strip(name)))
      decreases |s|
    {
      ReplaceDoubleShrinks(s);
      CollapseReplaceDouble(s);
      s := Replace(s, "__", "_");
    }
    ContainsDouble(s);
    CollapseFixed(s);
    r := StripChar(s, '_');
  }

  /** A file-name part with none of the replaced characters, no "__", and no '_' at either end. */
  predicate CleanName(r: string)
  {
    (forall i :: 0 <= i < |r| ==> !IsBadChar(r[i]))
    && !Contains(r, "__")
    && (|r| > 0 ==> r[0] != '_' && r[|r| - 1] != '_')
  }

  /**
   * A sanitised name contains none of the replaced characters (so no
   * lowercase `n`), no "__", and neither starts nor ends with '_'.
   */
  lemma SanitizedNameIsClean(s: string)
    ensures CleanName(SanitizedName(s))
  {
    var t := Translate(Strip(s));
    var c := Collapse(t);
    TranslatedClean(Strip(s));
    CleanCharsKept(t, c);
    StrippedCollapsedClean(c);
  }

  lemma TranslatedClean(s: string)
    ensures forall i :: 0 <= i < |Translate(s)| ==> !IsBadChar(Translate(s)[i])
  {
  }

  /** Stripping the underscores off a collapsed clean string keeps it clean. */
  lemma StrippedCollapsedClean(c: string)
    requires forall i :: 0 <= i < |c| ==> !IsBadChar(c[i])
    requires NoDoubleUnderscore(c)
    ensures CleanName(StripChar(c, '_'))
  {
    var r := StripChar(c, '_');
    CleanCharsKept(c, r);
    StripCharSlice(c, '_');
    ContainsDouble(r);
  }

  /** A string drawn from the characters of a string without bad characters has none either. */
  lemma CleanCharsKept(a: string, b: string)
    requires forall i :: 0 <= i < |a| ==> !IsBadChar(a[i])
    requires forall i :: 0 <= i < |b| ==> b[i] in a
    ensures forall i :: 0 <= i < |b| ==> !IsBadChar(b[i])
  {
    forall i | 0 <= i < |b|
      ensures !IsBadChar(b[i])
    {
      var j :| 0 <= j < |a| && a[j] == b[i];
    }
  }

  lemma StripCharSlice(s: string, c: char)
    requires NoDoubleUnderscore(s)
    ensures NoDoubleUnderscore(StripChar(s, c))
  {
    var p := (x: char) => x == c;
    var a := LeadingCount(s, p);
    var t := s[a..];
    var r := t[..|t| - TrailingCount(t, p)];
    assert StripChar(s, c) == r;
    assert forall i :: 0 <= i < |r| ==> r[i] == s[a + i];
  }

  /** Python's `sanitize` (common.py): alphanumerics, '-' and '_' kept, anything else becomes '_'. */
  function Sanitize(s: string): (r: string)
    ensures |r| == |Strip(s)|
    ensures forall i :: 0 <= i < |r| ==> IsAlnum(r[i]) || r[i] == '-' || r[i] == '_'
    ensures forall i :: 0 <= i < |r| ==> (IsAlnum(Strip(s)[i]) || Strip(s)[i] == '-') ==> r[i] == Strip(s)[i]
  {
    SanitizeChars(Strip(s))
  }

  function SanitizeChars(s: string): (r: string)
    ensures |r| == |s|
    ensures forall i :: 0 <= i < |s| ==> r[i] == if IsAlnum(s[i]) || s[i] == '-' || s[i] == '_' then s[i] else '_'
  {
    if s == [] then []
    else [if IsAlnum(s[0]) || s[0] == '-' || s[0] == '_' then s[0] else '_'] + SanitizeChars(s[1..])
  }

  // ------------------------------------------------------------ generated names

  const BaseImagePrefix: string := "MEDIA_IMG__"
  const BaseVideoPrefix: string := "MEDIA_VID__"
  const OverlayPrefix: string := "CANVAS__"

  /** `uuid4().hex[:16]`: sixteen lowercase hexadecimal digits. */
  predicate IsHexId(uid: string)
  {
    |uid| == 16 && forall i :: 0 <= i < 16 ==> IsDigit(uid[i]) || 'a' <= uid[i] <= 'f'
  }

  /** The extension of a base media name: lowercased, with a '.' added when missing. */
  function NormalExtension(extension: string): string
  {
    if StartsWith(extension, ".") then Lower(extension) else "." + Lower(extension)
  }

  function BaseImageFilename(uid: string, extension: string): string
    requires IsHexId(uid)
  {
    BaseImagePrefix + uid + NormalExtension(extension)
  }

  function BaseVideoFilename(uid: string, extension: string): string
    requires IsHexId(uid)
  {
    BaseVideoPrefix + uid + NormalExtension(extension)
  }

  /** The overlay type used when none is given. */
  const OverlayFehlerbild: string := "FEHLERBILD"
  const OverlayNacharbeit: string := "NACHARBEIT"
  const OverlayKontext: string := "KONTEXT"
  const OverlayZusatzFehler: string := "ZUSATZ_FEHLER"
  const OverlayZusatzNacharbeit: string := "ZUSATZ_NACHARBEIT"

  /** `f"{x}"` of an optional index, preceded by '_'; empty when there is none. */
  function IndexSuffix(index: Option<int>): string
  {
    if index.Some? then "_" + IntToString(index.value) else ""
  }

  /**
   * `generate_canvas_overlay_filename`; an empty argument stands for a falsy
   * one and takes the default.
   */
  function OverlayFilename(projectId: string, auditId: string, nr: string, overlayType: string, index: Option<int>): string
  {
    var p := SanitizedName(if projectId == "" then "PROJ" else projectId);
    var a := SanitizedName(if auditId == "" then "AUDIT" else auditId);
    var n := SanitizedName(if nr == "" then "000" else nr);
    var t := SanitizedName(if overlayType == "" then OverlayFehlerbild else overlayType);
    OverlayName(p, a, n, t, IndexSuffix(index))
  }

  /** The layout of an overlay name around its sanitised parts. */
  function OverlayName(p: string, a: string, n: string, t: string, suffix: string): string
  {
    OverlayPrefix + "PRJ_" + p + "__AUD_" + a + "__NR_" + n + "__TYPE_" + t + suffix + ".png"
  }

  /** `canonical_media_filename` (legacy naming); the extension is used as given. */
  function CanonicalMediaFilename(projectId: string, auditId: string, nr: string, mediaType: string,
                                  index: Option<int>, extension: string): string
  {
    var p := SanitizedName(if projectId == "" then "PROJ" else projectId);
    var a := SanitizedName(if auditId == "" then "AUDIT" else auditId);
    var n := SanitizedName(if nr == "" then "000" else nr);
    var t := SanitizedName(if mediaType == "" then "MEDIA" else mediaType);
    CanonicalName(p, a, n, t, IndexSuffix(index), extension)
  }

  /** The layout of a legacy canonical name around its sanitised parts. */
  function CanonicalName(p: string, a: string, n: string, t: string, suffix: string, extension: string): string
  {
    p + "__" + a + "__" + n + "__" + t + suffix + extension
  }

  // ------------------------------------------------------------ classification

  /** A reference of one kind: its file prefix, or its directory at the start or inside, in either slash direction. */
  predicate IsRefOfKind(ref: string, prefix: string, dir: string)
  {
    ref != ""
    && (StartsWith(ref, prefix)
        || StartsWith(ref, dir + "/") || StartsWith(ref, dir + "\\")
        || Contains(ref, "/" + dir + "/") || Contains(ref, "\\" + dir + "\\"))
  }

  predicate IsBaseImageRef(ref: string) { IsRefOfKind(ref, BaseImagePrefix, "base_images") }
  predicate IsBaseVideoRef(ref: string) { IsRefOfKind(ref, BaseVideoPrefix, "base_videos") }
  predicate IsOverlayRef(ref: string) { IsRefOfKind(ref, OverlayPrefix, "overlays") }

  /** The directory prefixes, old and new, that mark a reference into the global store. */
  const GlobalDirPrefixes: seq<string> := [
    "images_raw/", "images_edited/", "videos/",
    "images_raw\\", "images_edited\\", "videos\\",
    "base_images/", "base_videos/", "overlays/",
    "base_images\\", "base_videos\\", "overlays\\"]

  predicate IsGlobalMediaRef(ref: string)
  {
    ref != "" && !IsAbs(ref)
    && (IsBaseImageRef(ref) || IsBaseVideoRef(ref) || IsOverlayRef(ref)
        || exists i :: 0 <= i < |GlobalDirPrefixes| && StartsWith(ref, GlobalDirPrefixes[i]))
  }

  /** A generated base image name is recognised as a base image reference, and its parts can be read back. */
  lemma BaseImageFilenameIsBaseImageRef(uid: string, extension: string)
    requires IsHexId(uid)
    ensures var r := BaseImageFilename(uid, extension);
            IsBaseImageRef(r)
            && r[..11] == BaseImagePrefix && r[11..27] == uid
            && r[27] == '.' && Lower(r[28..]) == r[28..]
            && (!StartsWith(extension, ".") ==> r[28..] == Lower(extension))
  {
    var r := BaseImageFilename(uid, extension);
    assert r[..11] == BaseImagePrefix;
    NormalExtensionShape(extension);
  }

  /** A generated base video name is recognised as a base video reference, and its parts can be read back. */
  lemma BaseVideoFilenameIsBaseVideoRef(uid: string, extension: string)
    requires IsHexId(uid)
    ensures var r := BaseVideoFilename(uid, extension);
            IsBaseVideoRef(r)
            && r[..11] == BaseVideoPrefix && r[11..27] == uid
            && r[27] == '.' && Lower(r[28..]) == r[28..]
            && (!StartsWith(extension, ".") ==> r[28..] == Lower(extension))
  {
    var r := BaseVideoFilename(uid, extension);
    assert r[..11] == BaseVideoPrefix;
    NormalExtensionShape(extension);
  }

  lemma NormalExtensionShape(extension: string)
    ensures var e := NormalExtension(extension);
            |e| > 0 && e[0] == '.' && Lower(e[1..]) == e[1..]
            && (!StartsWith(extension, ".") ==> e[1..] == Lower(extension))
  {
    var e := NormalExtension(extension);
    if StartsWith(extension, ".") {
      assert e[0] == LowerChar(extension[0]) == '.';
    } else {
      assert e[1..] == Lower(extension);
    }
    LowerIdempotent(e[1..]);
  }

  lemma LowerIdempotent(s: string)
    ensures Lower(Lower(s)) == Lower(s)
  {
  }

  /** A name that is already clean, with no surrounding whitespace, is left as it is. */
  lemma SanitizedNameFixed(s: string)
    requires forall i :: 0 <= i < |s| ==> !IsBadChar(s[i])
    requires NoDoubleUnderscore(s)
    requires |s| > 0 ==> !IsSpace(s[0]) && !IsSpace(s[|s| - 1]) && s[0] != '_' && s[|s| - 1] != '_'
    ensures SanitizedName(s) == s
  {
    if s != [] {
      StripUnpadded(s);
      TranslateClean(s);
      CollapseFixed(s);
      StripCharUnpadded(s, '_');
    }
  }

  lemma TranslateClean(s: string)
    requires forall i :: 0 <= i < |s| ==> !IsBadChar(s[i])
    ensures Translate(s) == s
  {
  }

  lemma StripCharUnpadded(s: string, c: char)
    requires |s| > 0 && s[0] != c && s[|s| - 1] != c
    ensures StripChar(s, c) == s
  {
    var p := (x: char) => x == c;
    assert LeadingCount(s, p) == 0;
    assert TrailingCount(s, p) == 0;
  }

  lemma OverlayNameIsOverlayRef(p: string, a: string, n: string, t: string, suffix: string)
    ensures var r := OverlayName(p, a, n, t, suffix);
            IsOverlayRef(r) && StartsWith(r, "CANVAS__PRJ_") && EndsWith(r, ".png")
  {
    var r := OverlayName(p, a, n, t, suffix);
    assert r == "CANVAS__PRJ_" + (p + "__AUD_" + a + "__NR_" + n + "__TYPE_" + t + suffix) + ".png";
    assert r[..8] == OverlayPrefix;
  }

  /** Generated overlay names are overlay references. */
  lemma OverlayFilenameIsOverlayRef(projectId: string, auditId: string, nr: string, overlayType: string, index: Option<int>)
    ensures var r := OverlayFilename(projectId, auditId, nr, overlayType, index);
            IsOverlayRef(r) && StartsWith(r, "CANVAS__PRJ_") && EndsWith(r, ".png")
  {
    OverlayNameIsOverlayRef(
      SanitizedName(if projectId == "" then "PROJ" else projectId),
      SanitizedName(if auditId == "" then "AUDIT" else auditId),
      SanitizedName(if nr == "" then "000" else nr),
      SanitizedName(if overlayType == "" then OverlayFehlerbild else overlayType),
      IndexSuffix(index));
  }

  /** With every part empty the defaults PROJ, AUDIT, 000 and FEHLERBILD are used. */
  lemma OverlayFilenameDefaults()
    ensures OverlayFilename("", "", "", "", None) == OverlayName("PROJ", "AUDIT", "000", "FEHLERBILD", "")
  {
    DefaultPartsAreClean();
  }

  lemma DefaultPartsAreClean()
    ensures SanitizedName("PROJ") == "PROJ" && SanitizedName("AUDIT") == "AUDIT"
    ensures SanitizedName("000") == "000" && SanitizedName("FEHLERBILD") == "FEHLERBILD"
  {
    CleanProj();
    CleanAudit();
    CleanZeros();
    CleanFehlerbild();
  }

  lemma CleanProj() ensures SanitizedName("PROJ") == "PROJ" { SanitizedNameFixed("PROJ"); }
  lemma CleanAudit() ensures SanitizedName("AUDIT") == "AUDIT" { SanitizedNameFixed("AUDIT"); }
  lemma CleanZeros() ensures SanitizedName("000") == "000" { SanitizedNameFixed("000"); }
  lemma CleanFehlerbild() ensures SanitizedName("FEHLERBILD") == "FEHLERBILD" { SanitizedNameFixed("FEHLERBILD"); }

  // ------------------------------------------------------------ separators

  /** No '/' and no '\\': a bare file name in either slash convention. */
  predicate NoSeparator(s: string)
  {
    forall i :: 0 <= i < |s| ==> s[i] != '/' && s[i] != '\\'
  }

  lemma NoSeparatorAppend(a: string, b: string)
    requires NoSeparator(a) && NoSeparator(b)
    ensures NoSeparator(a + b)
  {
    forall i | 0 <= i < |a + b|
      ensures (a + b)[i] != '/' && (a + b)[i] != '\\'
    {
      if i < |a| { assert (a + b)[i] == a[i]; } else { assert (a + b)[i] == b[i - |a|]; }
    }
  }

  lemma SanitizedNoSeparator(s: string)
    ensures NoSeparator(SanitizedName(s))
  {
    SanitizedNameIsClean(s);
  }

  lemma IndexSuffixNoSeparator(index: Option<int>)
    ensures NoSeparator(IndexSuffix(index))
  {
    if index.Some? {
      var i := index.value;
      var d := NatToString(if i >= 0 then i else -i);
      assert forall k :: 0 <= k < |d| ==> IsDigit(d[k]);
      NoSeparatorAppend("_", IntToString(i));
    }
  }

  /** An overlay name built from separator-free parts has no separator. */
  lemma OverlayNameNoSeparator(p: string, a: string, n: string, t: string, suffix: string)
    requires NoSeparator(p) && NoSeparator(a) && NoSeparator(n) && NoSeparator(t) && NoSeparator(suffix)
    ensures NoSeparator(OverlayName(p, a, n, t, suffix))
  {
    NoSeparatorAppend(OverlayPrefix + "PRJ_", p);
    NoSeparatorAppend(OverlayPrefix + "PRJ_" + p, "__AUD_");
    NoSeparatorAppend(OverlayPrefix + "PRJ_" + p + "__AUD_", a);
    NoSeparatorAppend(OverlayPrefix + "PRJ_" + p + "__AUD_" + a, "__NR_");
    NoSeparatorAppend(OverlayPrefix + "PRJ_" + p + "__AUD_" + a + "__NR_", n);
    NoSeparatorAppend(OverlayPrefix + "PRJ_" + p + "__AUD_" + a + "__NR_" + n, "__TYPE_");
    NoSeparatorAppend(OverlayPrefix + "PRJ_" + p + "__AUD_" + a + "__NR_" + n + "__TYPE_", t);
    NoSeparatorAppend(OverlayPrefix + "PRJ_" + p + "__AUD_" + a + "__NR_" + n + "__TYPE_" + t, suffix);
    NoSeparatorAppend(OverlayPrefix + "PRJ_" + p + "__AUD_" + a + "__NR_" + n + "__TYPE_" + t + suffix, ".png");
  }

  /** Generated overlay names contain no path separator. */
  lemma OverlayFilenameNoSeparator(projectId: string, auditId: string, nr: string, overlayType: string, index: Option<int>)
    ensures NoSeparator(OverlayFilename(projectId, auditId, nr, overlayType, index))
  {
    var p := if projectId == "" then "PROJ" else projectId;
    var a := if auditId == "" then "AUDIT" else auditId;
    var n := if nr == "" then "000" else nr;
    var t := if overlayType == "" then OverlayFehlerbild else overlayType;
    SanitizedNoSeparator(p);
    SanitizedNoSeparator(a);
    SanitizedNoSeparator(n);
    SanitizedNoSeparator(t);
    IndexSuffixNoSeparator(index);
    OverlayNameNoSeparator(SanitizedName(p), SanitizedName(a), SanitizedName(n), SanitizedName(t), IndexSuffix(index));
  }

  /** A legacy canonical name with a separator-free extension is a bare file name. */
  lemma CanonicalMediaFilenameNoSeparator(projectId: string, auditId: string, nr: string, mediaType: string,
                                          index: Option<int>, extension: string)
    requires NoSeparator(extension)
    ensures NoSeparator(CanonicalMediaFilename(projectId, auditId, nr, mediaType, index, extension))
  {
    SanitizedNoSeparator(if projectId == "" then "PROJ" else projectId);
    SanitizedNoSeparator(if auditId == "" then "AUDIT" else auditId);
    SanitizedNoSeparator(if nr == "" then "000" else nr);
    SanitizedNoSeparator(if mediaType == "" then "MEDIA" else mediaType);
    IndexSuffixNoSeparator(index);
    CanonicalNameNoSeparator(SanitizedName(if projectId == "" then "PROJ" else projectId),
                             SanitizedName(if auditId == "" then "AUDIT" else auditId),
                             SanitizedName(if nr == "" then "000" else nr),
                             SanitizedName(if mediaType == "" then "MEDIA" else mediaType),
                             IndexSuffix(index), extension);
  }

  /** A canonical name built from separator-free parts has no separator. */
  lemma CanonicalNameNoSeparator(p: string, a: string, n: string, t: string, suffix: string, extension: string)
    requires NoSeparator(p) && NoSeparator(a) && NoSeparator(n) && NoSeparator(t)
    requires NoSeparator(suffix) && NoSeparator(extension)
    ensures NoSeparator(CanonicalName(p, a, n, t, suffix, extension))
  {
    NoSeparatorAppend(p, "__");
    NoSeparatorAppend(p + "__", a);
    NoSeparatorAppend(p + "__" + a, "__");
    NoSeparatorAppend(p + "__" + a + "__", n);
    NoSeparatorAppend(p + "__" + a + "__" + n, "__");
    NoSeparatorAppend(p + "__" + a + "__" + n + "__", t);
    NoSeparatorAppend(p + "__" + a + "__" + n + "__" + t, suffix);
    NoSeparatorAppend(p + "__" + a + "__" + n + "__" + t + suffix, extension);
  }

  /** With every part empty the legacy name uses PROJ, AUDIT, 000 and MEDIA. */
  lemma CanonicalMediaFilenameDefaults(extension: string)
    ensures CanonicalMediaFilename("", "", "", "", None, extension) == "PROJ__AUDIT__000__MEDIA" + extension
  {
    CanonicalDefaultParts(extension);
    CanonicalDefaultLayout(extension);
  }

  lemma CanonicalDefaultParts(extension: string)
    ensures CanonicalMediaFilename("", "", "", "", None, extension) == CanonicalName("PROJ", "AUDIT", "000", "MEDIA", "", extension)
  {
    CleanProj();
    CleanAudit();
    CleanZeros();
    CleanMedia();
  }

  lemma CanonicalDefaultLayout(extension: string)
    ensures CanonicalName("PROJ", "AUDIT", "000", "MEDIA", "", extension) == "PROJ__AUDIT__000__MEDIA" + extension
  {
  }

  lemma CleanMedia() ensures SanitizedName("MEDIA") == "MEDIA" { SanitizedNameFixed("MEDIA"); }

  /** A text containing `sub` contains the first character of `sub`. */
  lemma ContainsFirst(s: string, sub: string)
    ensures Contains(s, sub) && |sub| > 0 ==> exists i :: 0 <= i < |s| && s[i] == sub[0]
  {
    if Contains(s, sub) && |sub| > 0 {
      var i := ContainsWitness(s, sub);
      assert s[i] == s[i..i + |sub|][0];
    }
  }

  /** A text starting with `p` holds the last character of `p` at the same place. */
  lemma StartsWithLast(s: string, p: string)
    ensures StartsWith(s, p) && |p| > 0 ==> s[|p| - 1] == p[|p| - 1]
  {
    if StartsWith(s, p) && |p| > 0 {
      assert s[..|p|][|p| - 1] == s[|p| - 1];
    }
  }

  /** A separator-free name is a reference of a kind only through that kind's file prefix. */
  lemma NoSeparatorKind(ref: string, prefix: string, dir: string)
    requires NoSeparator(ref) && dir != ""
    ensures IsRefOfKind(ref, prefix, dir) <==> ref != "" && StartsWith(ref, prefix)
  {
    StartsWithLast(ref, dir + "/");
    StartsWithLast(ref, dir + "\\");
    ContainsFirst(ref, "/" + dir + "/");
    ContainsFirst(ref, "\\" + dir + "\\");
  }
}
