/**
 * The Inhaltsangabe (table of contents) view of an audit's Fehlerbilder:
 * the Nacharbeit tooltip and its HTML escaping, the area and system values
 * of a record (single or multi-select), the coloured badges rendered for
 * them, the two-level grouping by primary area and system, and the row
 * filters of the view.
 */
module Inhaltsangabe {
  import opened Wrappers
  import opened Text
  import opened Json
  import opened Seqs
  import opened Options
  import opened Records

  // ------------------------------------------------------------ tooltip escaping

  /** The characters `html.escape(s, quote=True)` rewrites. */
  predicate IsHtmlSpecial(c: char)
  {
    c == '&' || c == '<' || c == '>' || c == '"' || c == '\''
  }

  function EscapeHtmlChar(c: char): (r: string)
    ensures '<' !in r && '>' !in r && '"' !in r && '\'' !in r
    ensures ('\n' in r <==> c == '\n') && ('\r' in r <==> c == '\r')
    ensures !IsHtmlSpecial(c) ==> r == [c]
  {
    if c == '&' then "&amp;"
    else if c == '<' then "&lt;"
    else if c == '>' then "&gt;"
    else if c == '"' then QuoteEntity
    else if c == '\'' then "&#x27;"
    else [c]
  }

  /** `html.escape(s)`: each special character becomes its entity, the rest is kept. */
  function HtmlEscape(s: string): (r: string)
    ensures '<' !in r && '>' !in r && '"' !in r && '\'' !in r
    ensures ('\n' in r <==> '\n' in s) && ('\r' in r <==> '\r' in s)
    ensures (forall i :: 0 <= i < |s| ==> !IsHtmlSpecial(s[i])) ==> r == s
    ensures s != [] && !IsHtmlSpecial(s[0]) ==> r != [] && r[0] == s[0]
  {
    if s == [] then [] else EscapeHtmlChar(s[0]) + HtmlEscape(s[1..])
  }

  const NewlineEntity: string := "&#10;"
  const QuoteEntity: string := "&quot;"
  const ApostropheEntity: string := "&#39;"

  /** `escape_tooltip_text`: HTML-escape, newlines to `&#10;`, drop carriage returns. */
  function EscapeTooltip(text: string): string
  {
    if text == [] then []
    else
      var escaped := HtmlEscape(text);
      var noNewlines := Replace(escaped, "\n", NewlineEntity);
      var noReturns := Replace(noNewlines, "\r", "");
      var noDouble := Replace(noReturns, "\"", QuoteEntity);
      Replace(noDouble, "'", ApostropheEntity)
  }

  /**
   * The escaped text can sit inside a double- or single-quoted HTML
   * attribute: it holds no angle bracket, no quote and no line break.
   */
  lemma EscapeTooltipSafe(text: string)
    ensures text == [] ==> EscapeTooltip(text) == []
    ensures var r := EscapeTooltip(text);
            '<' !in r && '>' !in r && '"' !in r && '\'' !in r && '\n' !in r && '\r' !in r
  {
    if text != [] {
      var e0 := HtmlEscape(text);
      var e1 := Replace(e0, "\n", NewlineEntity);
      var e2 := Replace(e1, "\r", "");
      ReplaceCharRemoves(e0, '\n', NewlineEntity);
      ReplaceCharKeeps(e0, '\n', NewlineEntity, '<');
      ReplaceCharKeeps(e0, '\n', NewlineEntity, '>');
      ReplaceCharKeeps(e0, '\n', NewlineEntity, '"');
      ReplaceCharKeeps(e0, '\n', NewlineEntity, '\'');
      ReplaceCharRemoves(e1, '\r', "");
      ReplaceCharKeeps(e1, '\r', "", '<');
      ReplaceCharKeeps(e1, '\r', "", '>');
      ReplaceCharKeeps(e1, '\r', "", '"');
      ReplaceCharKeeps(e1, '\r', "", '\'');
      ReplaceCharKeeps(e1, '\r', "", '\n');
      ReplaceCharAbsent(e2, '"', QuoteEntity);
      ReplaceCharAbsent(e2, '\'', ApostropheEntity);
    }
  }

  /**
   * On text with nothing to escape but line breaks, the only change is that
   * every newline becomes the entity `&#10;`.
   */
  lemma EscapeTooltipNewlines(text: string)
    requires forall i :: 0 <= i < |text| ==> !IsHtmlSpecial(text[i]) && text[i] != '\r'
    ensures EscapeTooltip(text) == Replace(text, "\n", NewlineEntity)
  {
    if text != [] {
      assert HtmlEscape(text) == text;
      assert '\r' !in text && '"' !in text && '\'' !in text;
      NewlineEntityOnly(text);
      LaterReplacesIdle(Replace(text, "\n", NewlineEntity));
    }
  }

  /** Turning newlines into `&#10;` adds no carriage return and no quote. */
  lemma NewlineEntityOnly(text: string)
    requires '\r' !in text && '"' !in text && '\'' !in text
    ensures var e := Replace(text, "\n", NewlineEntity); '\r' !in e && '"' !in e && '\'' !in e
  {
    ReplaceCharKeeps(text, '\n', NewlineEntity, '\r');
    ReplaceCharKeeps(text, '\n', NewlineEntity, '"');
    ReplaceCharKeeps(text, '\n', NewlineEntity, '\'');
  }

  /** The carriage-return and quote replacements leave text without those characters alone. */
  lemma LaterReplacesIdle(e: string)
    requires '\r' !in e && '"' !in e && '\'' !in e
    ensures Replace(Replace(Replace(e, "\r", ""), "\"", QuoteEntity), "'", ApostropheEntity) == e
  {
    ReplaceCharAbsent(e, '\r', "");
    ReplaceCharAbsent(e, '"', QuoteEntity);
    ReplaceCharAbsent(e, '\'', ApostropheEntity);
  }

  /** A replacement never touches a first character that does not match the pattern. */
  lemma ReplaceKeepsFirst(s: string, c: char, rep: string)
    requires s != [] && s[0] != c
    ensures var r := Replace(s, [c], rep); r != [] && r[0] == s[0]
  {
    assert !StartsWith(s, [c]) by {
      assert s[..1] == [s[0]];
    }
  }

  /** A first character that needs no escaping survives, so the result is not empty. */
  lemma EscapeTooltipFirst(text: string)
    requires text != [] && !IsHtmlSpecial(text[0]) && text[0] != '\n' && text[0] != '\r'
    ensures EscapeTooltip(text) != [] && EscapeTooltip(text)[0] == text[0]
  {
    var e0 := HtmlEscape(text);
    var e1 := Replace(e0, "\n", NewlineEntity);
    var e2 := Replace(e1, "\r", "");
    var e3 := Replace(e2, "\"", QuoteEntity);
    ReplaceKeepsFirst(e0, '\n', NewlineEntity);
    ReplaceKeepsFirst(e1, '\r', "");
    ReplaceKeepsFirst(e2, '"', QuoteEntity);
    ReplaceKeepsFirst(e3, '\'', ApostropheEntity);
  }

  // ------------------------------------------------------------ Nacharbeit tooltip

  const MassnahmeHeading: string := "\U{1F4CB} Nacharbeitsmaßnahme:\n"
  const KommentarHeading: string := "\U{1F4AC} Kommentar Nacharbeit:\n"

  const MassnahmeKey: string := "Nacharbeitsmassnahme"
  const VorschlagKey: string := "Nacharbeitsvorschlag"
  const KommentarKey: string := "Kommentar_Nacharbeit"

  /** The Nacharbeit measure, falling back to the older suggestion field. */
  function Massnahme(f: Dict): Json
  {
    Or(Get(f, MassnahmeKey, Str("")), Get(f, VorschlagKey, Str("")))
  }

  function Kommentar(f: Dict): Json
  {
    Get(f, KommentarKey, Str(""))
  }

  /** `(v or "").strip()`; a truthy value that is not text has no `strip` and raises. */
  function Stripped(v: Json): Option<string>
  {
    if !Truthy(v) then Some("") else if v.Str? then Some(Strip(v.s)) else None
  }

  /** The stripped measure and comment of a record, when both can be read. */
  function TooltipFields(rec: Dict): Option<(string, string)>
  {
    match FehlerOf(rec)
    case None => None
    case Some(f) =>
      var m := Stripped(Massnahme(f));
      var k := Stripped(Kommentar(f));
      if m.None? || k.None? then None else Some((m.value, k.value))
  }

  /** The tooltip paragraphs: a headed one for each of measure and comment that is not blank. */
  function TooltipParts(m: string, k: string): (parts: seq<string>)
    ensures parts == [] <==> m == "" && k == ""
  {
    (if m != "" then [MassnahmeHeading + m] else [])
    + (if k != "" then [KommentarHeading + k] else [])
  }

  /**
   * `has_nacharbeit_info`: whether the measure or the comment is not blank.
   * The `or` short-circuits, so a readable non-blank measure answers True
   * even when the comment could not be stripped.
   */
  function HasNacharbeitInfo(rec: Dict): Option<bool>
  {
    match FehlerOf(rec)
    case None => None
    case Some(f) =>
      var m := Stripped(Massnahme(f));
      if m.None? then None
      else if m.value != "" then Some(true)
      else
        var k := Stripped(Kommentar(f));
        if k.None? then None else Some(k.value != "")
  }

  lemma JoinFirst(parts: seq<string>, sep: string)
    requires parts != [] && parts[0] != []
    ensures var j := Join(parts, sep); j != [] && j[0] == parts[0][0]
  {
    if |parts| > 1 {
      assert Join(parts, sep) == parts[0] + (sep + Join(parts[1..], sep));
    }
  }

  const ParagraphBreak: string := "\n\n"

  /** The tooltip for a measure and a comment: "" when both are blank. */
  function TooltipText(m: string, k: string): string
  {
    if m == "" && k == "" then "" else EscapeTooltip(Join(TooltipParts(m, k), ParagraphBreak))
  }

  /** With a paragraph to show, the tooltip is not empty: it starts with the paragraph's icon. */
  lemma TooltipTextNonEmpty(m: string, k: string)
    requires m != "" || k != ""
    ensures TooltipText(m, k) != ""
  {
    var parts := TooltipParts(m, k);
    assert parts[0][0] == '\U{1F4CB}' || parts[0][0] == '\U{1F4AC}';
    JoinFirst(parts, ParagraphBreak);
    EscapeTooltipFirst(Join(parts, ParagraphBreak));
  }

  /**
   * Where both fields can be read, `has_nacharbeit_info` says whether either
   * is not blank; where it fails, so does reading the fields.
   */
  lemma HasInfoOfFields(rec: Dict)
    ensures TooltipFields(rec).Some? ==>
              var (m, k) := TooltipFields(rec).value; HasNacharbeitInfo(rec) == Some(m != "" || k != "")
    ensures HasNacharbeitInfo(rec).None? ==> TooltipFields(rec).None?
    ensures HasNacharbeitInfo(rec) == Some(false) ==> TooltipFields(rec) == Some(("", ""))
  {
  }

  /**
   * `build_nacharbeit_tooltip`: the escaped paragraphs joined by a blank
   * line, or "" when there are none. It is "" exactly when the record has
   * no Nacharbeit information, and it fails only where reading the fields
   * fails.
   */
  method BuildNacharbeitTooltip(rec: Dict) returns (r: Option<string>)
    ensures r.None? <==> TooltipFields(rec).None?
    ensures r.Some? ==> r.value == TooltipText(TooltipFields(rec).value.0, TooltipFields(rec).value.1)
    ensures r.Some? ==> (r.value == "" <==> HasNacharbeitInfo(rec) == Some(false))
    ensures HasNacharbeitInfo(rec) == Some(false) ==> r == Some("")
    ensures HasNacharbeitInfo(rec).None? ==> r.None?
  {
    HasInfoOfFields(rec);
    var f := FehlerOf(rec);
    if f.None? {
      return None;
    }
    var massnahme := Stripped(Massnahme(f.value));
    var kommentar := Stripped(Kommentar(f.value));
    if massnahme.None? || kommentar.None? {
      return None;
    }
    var m, k := massnahme.value, kommentar.value;
    assert TooltipFields(rec) == Some((m, k));
    var parts: seq<string> := [];
    if m != "" {
      parts := parts + [MassnahmeHeading + m];
    }
    if k != "" {
      parts := parts + [KommentarHeading + k];
    }
    if parts == [] {
      return Some("");
    }
    TooltipTextNonEmpty(m, k);
    r := Some(EscapeTooltip(Join(parts, ParagraphBreak)));
  }

  // ------------------------------------------------------------ areas and systems

  /** The non-empty list stored under a multi-select key, if there is one. */
  function MultiList(f: Dict, multiKey: string): Option<seq<Json>>
  {
    var multi := Get(f, multiKey, Null);
    if multi.Arr? && |multi.items| > 0 then Some(multi.items) else None
  }

  /**
   * `get_all_areas` / `get_all_systems`: the multi-select list when it is a
   * non-empty list, otherwise the single value when it is truthy, otherwise
   * nothing. Fails when `fehler` is not a dict.
   */
  function AllValues(rec: Dict, multiKey: string, singleKey: string): (r: Option<seq<Json>>)
    ensures r.None? <==> FehlerOf(rec).None?
    ensures r.Some? && MultiList(FehlerOf(rec).value, multiKey).Some? ==>
              r.value == MultiList(FehlerOf(rec).value, multiKey).value
    ensures r.Some? && MultiList(FehlerOf(rec).value, multiKey).None? ==>
              var single := Get(FehlerOf(rec).value, singleKey, Null);
              r.value == if Truthy(single) then [single] else []
  {
    match FehlerOf(rec)
    case None => None
    case Some(f) =>
      var multi := MultiList(f, multiKey);
      if multi.Some? then multi
      else
        var single := Get(f, singleKey, Null);
        Some(if Truthy(single) then [single] else [])
  }

  function AllAreas(rec: Dict): Option<seq<Json>>
  {
    AllValues(rec, "vehicle_area_multi", "vehicle_area")
  }

  function AllSystems(rec: Dict): Option<seq<Json>>
  {
    AllValues(rec, "system_domain_multi", "system_domain")
  }

  /** `f.get(key, "") or default`: the value used to group and sort a record. */
  function PrimaryValue(rec: Dict, key: string, default: string): Option<Json>
  {
    match FehlerOf(rec)
    case None => None
    case Some(f) => Some(Or(Get(f, key, Str("")), Str(default)))
  }

  const NoArea: string := "Nicht_zugewiesen"
  const OtherSystem: string := "Sonstige"

  function PrimaryArea(rec: Dict): Option<Json>
  {
    PrimaryValue(rec, "vehicle_area", NoArea)
  }

  function PrimarySystem(rec: Dict): Option<Json>
  {
    PrimaryValue(rec, "system_domain", OtherSystem)
  }

  /**
   * A missing or empty field gives the default, anything else is kept as
   * it is; the primary value is never falsy.
   */
  lemma PrimaryDefaults(rec: Dict, key: string, default: string)
    requires FehlerOf(rec).Some? && default != ""
    ensures var f, p := FehlerOf(rec).value, PrimaryValue(rec, key, default);
            p.Some? && Truthy(p.value)
            && (key !in f || !Truthy(f[key]) <==> p.value == Str(default) && (key !in f || f[key] != Str(default)))
            && (key in f && Truthy(f[key]) ==> p.value == f[key])
  {
  }

  /**
   * Without a multi-select list, the single field that `get_all_*` lists is
   * the primary value: the list is empty exactly when the primary value
   * falls back to its default, and otherwise it is the primary value alone.
   */
  lemma AllValuesPrimary(rec: Dict, multiKey: string, singleKey: string, default: string)
    requires FehlerOf(rec).Some? && MultiList(FehlerOf(rec).value, multiKey).None?
    ensures var all, p := AllValues(rec, multiKey, singleKey).value, PrimaryValue(rec, singleKey, default).value;
            (all == [] ==> p == Str(default)) && (all != [] ==> all == [p])
  {
  }

  // ------------------------------------------------------------ badges

  /** The lookup tables of one badge kind and how many characters an unknown key keeps. */
  datatype BadgeStyle = BadgeStyle(
    colors: map<string, (string, string)>,
    short: map<string, string>,
    full: map<string, string>,
    width: nat)

  /** (text colour, background colour) per vehicle area. */
  const AreaBadgeColors: map<string, (string, string)> := map[
    "Front_Exterieur" := ("#1565C0", "#E3F2FD"),
    "Rechte_Seite" := ("#EF6C00", "#FFF3E0"),
    "Heck_Exterieur" := ("#7B1FA2", "#F3E5F5"),
    "Linke_Seite" := ("#EF6C00", "#FFF3E0"),
    "Dach" := ("#2E7D32", "#E8F5E9"),
    "Interieur_Vorne" := ("#F9A825", "#FFFDE7"),
    "Interieur_Hinten" := ("#F9A825", "#FFFDE7"),
    "Motorraum" := ("#C62828", "#FFEBEE"),
    "Unterboden" := ("#546E7A", "#ECEFF1")]

  /** (text colour, background colour) per system. */
  const SystemBadgeColors: map<string, (string, string)> := map[
    "Karosserie" := ("#4E342E", "#EFEBE9"),
    "Lack" := ("#AD1457", "#FCE4EC"),
    "Exterieur" := ("#1565C0", "#E3F2FD"),
    "Interieur" := ("#6A1B9A", "#F3E5F5"),
    "Elektrik" := ("#FF6F00", "#FFF8E1"),
    "Antrieb" := ("#2E7D32", "#E8F5E9"),
    "Fahrwerk" := ("#37474F", "#ECEFF1"),
    "Software" := ("#0277BD", "#E1F5FE"),
    "Sonstige" := ("#757575", "#FAFAFA")]

  const AreaShortLabels: map<string, string> := map[
    "Front_Exterieur" := "Front",
    "Rechte_Seite" := "Rechts",
    "Heck_Exterieur" := "Heck",
    "Linke_Seite" := "Links",
    "Dach" := "Dach",
    "Interieur_Vorne" := "Int.V",
    "Interieur_Hinten" := "Int.H",
    "Motorraum" := "Motor",
    "Unterboden" := "Unter"]

  const SystemShortLabels: map<string, string> := map[
    "Karosserie" := "Karos.",
    "Lack" := "Lack",
    "Exterieur" := "Ext.",
    "Interieur" := "Int.",
    "Elektrik" := "Elek.",
    "Antrieb" := "Antr.",
    "Fahrwerk" := "Fahrw.",
    "Software" := "SW",
    "Sonstige" := "Sonst."]

  const AreaStyle: BadgeStyle := BadgeStyle(AreaBadgeColors, AreaShortLabels, VehicleAreaLabels, 6)
  const SystemStyle: BadgeStyle := BadgeStyle(SystemBadgeColors, SystemShortLabels, SystemDomainLabels, 5)

  /** What is rendered when there is no badge to show. */
  const Placeholder: string := "<span style=\"color: #999;\">—</span>"

  /** `s[:n]`. */
  function Prefix(s: string, n: nat): (r: string)
    ensures |r| <= n && StartsWith(s, r)
  {
    if |s| <= n then s else s[..n]
  }

  /** The badge text: the short label, else the first characters of the key (`?` for none). */
  function ShortLabel(t: BadgeStyle, key: string): string
  {
    if key in t.short then t.short[key] else Prefix(if key == "" then "?" else key, t.width)
  }

  /** The hover title: the full label, else the key itself (`Unbekannt` for none). */
  function FullLabel(t: BadgeStyle, key: string): string
  {
    if key in t.full then t.full[key] else if key == "" then "Unbekannt" else key
  }

  function BadgeColors(t: BadgeStyle, key: string): (string, string)
  {
    if key in t.colors then t.colors[key] else ("#666", "#EEE")
  }

  const BadgeOpen: string := "<span title=\""
  const BadgeClose: string := "</span>"

  /** The opening of a badge, up to the end of its title attribute. */
  function BadgeHead(t: BadgeStyle, key: string): string
  {
    BadgeOpen + FullLabel(t, key) + TitleEnd
  }

  const TitleEnd: string := "\""

  /** The end of a badge: its text and the closing tag. */
  function BadgeTail(t: BadgeStyle, key: string): string
  {
    ShortLabel(t, key) + BadgeClose
  }

  /** The inline style of a badge, given its (text, background) colours. */
  function BadgeStyleAttr(colors: (string, string)): string
  {
    StyleBackground + colors.1 + StyleColor + colors.0 + StyleBox + colors.0 + StyleEnd
  }

  const StyleBackground: string := " style=\"background: "
  const StyleColor: string := "; color: "
  const StyleBox: string :=
    "; padding: 2px 6px; border-radius: 4px; font-size: 0.75rem; font-weight: 600;"
    + " margin-right: 3px; display: inline-block; border: 1px solid "
  /** The border colour is the text colour with alpha `20`. */
  const StyleEnd: string := "20; white-space: nowrap;\">"

  /** The HTML of one badge. */
  function BadgeHtml(t: BadgeStyle, key: string): string
  {
    BadgeHead(t, key) + BadgeStyleAttr(BadgeColors(t, key)) + BadgeTail(t, key)
  }

  /** A badge is titled with the full label and shows the short one. */
  lemma BadgeShape(t: BadgeStyle, key: string)
    ensures StartsWith(BadgeHtml(t, key), BadgeOpen + FullLabel(t, key) + TitleEnd)
    ensures EndsWith(BadgeHtml(t, key), ShortLabel(t, key) + BadgeClose)
  {
    var head, mid, tail := BadgeHead(t, key), BadgeStyleAttr(BadgeColors(t, key)), BadgeTail(t, key);
    var r := head + mid + tail;
    assert r[..|head|] == head;
    assert r[|r| - |tail|..] == tail;
  }

  /** The entries that get a badge: all of them, or those differing from a non-empty `exclude`. */
  function Displayed(items: seq<string>, exclude: Option<string>): seq<string>
  {
    if exclude.Some? && exclude.value != "" then Filter(items, a => a != exclude.value) else items
  }

  /** One badge per entry, in order. */
  function Badges(t: BadgeStyle, keys: seq<string>): (r: seq<string>)
    ensures |r| == |keys|
    ensures forall j :: 0 <= j < |keys| ==> r[j] == BadgeHtml(t, keys[j])
  {
    seq(|keys|, j requires 0 <= j < |keys| => BadgeHtml(t, keys[j]))
  }

  /** What `render_area_badges` / `render_system_badges` return. */
  function BadgeRow(t: BadgeStyle, items: seq<string>, exclude: Option<string>): string
  {
    var shown := Displayed(items, exclude);
    if shown == [] then Placeholder else Join(Badges(t, shown), "")
  }

  /**
   * `render_area_badges` / `render_system_badges`: the placeholder when
   * nothing is left to show, otherwise the badges concatenated.
   */
  method RenderBadges(t: BadgeStyle, items: seq<string>, exclude: Option<string>) returns (html: string)
    ensures html == BadgeRow(t, items, exclude)
  {
    if items == [] {
      return Placeholder;
    }
    var shown := Displayed(items, exclude);
    if shown == [] {
      return Placeholder;
    }
    var badges: seq<string> := [];
    for i := 0 to |shown|
      invariant |badges| == i
      invariant forall j :: 0 <= j < i ==> badges[j] == BadgeHtml(t, shown[j])
    {
      badges := badges + [BadgeHtml(t, shown[i])];
    }
    assert badges == Badges(t, shown);
    html := Join(badges, "");
  }

  method RenderAreaBadges(areas: seq<string>, exclude: Option<string>) returns (html: string)
    ensures html == BadgeRow(AreaStyle, areas, exclude)
  {
    html := RenderBadges(AreaStyle, areas, exclude);
  }

  method RenderSystemBadges(systems: seq<string>, exclude: Option<string>) returns (html: string)
    ensures html == BadgeRow(SystemStyle, systems, exclude)
  {
    html := RenderBadges(SystemStyle, systems, exclude);
  }

  /** The placeholder is shown exactly when the list is empty or every entry is the excluded one. */
  lemma {:induction false} PlaceholderWhenNothingShown(items: seq<string>, exclude: Option<string>)
    ensures Displayed(items, exclude) == [] <==>
              items == [] || (exclude.Some? && exclude.value != "" && forall j :: 0 <= j < |items| ==> items[j] == exclude.value)
  {
    if exclude.Some? && exclude.value != "" {
      var p := (a: string) => a != exclude.value;
      if forall j :: 0 <= j < |items| ==> items[j] == exclude.value {
        if Filter(items, p) != [] {
          assert Filter(items, p)[0] in Filter(items, p);
        }
      } else {
        var j :| 0 <= j < |items| && items[j] != exclude.value;
        assert items[j] in Filter(items, p);
      }
    }
  }

  /**
   * Otherwise there is one badge per entry other than the excluded one, in
   * the order of the list, each titled with that entry's full label.
   */
  lemma BadgesPerEntry(t: BadgeStyle, items: seq<string>, exclude: Option<string>)
    ensures var shown := Displayed(items, exclude);
            IsSubsequence(shown, items)
            && (forall a :: a in shown <==> a in items && (exclude.Some? && exclude.value != "" ==> a != exclude.value))
            && |Badges(t, shown)| == |shown|
            && (forall j :: 0 <= j < |shown| ==> StartsWith(Badges(t, shown)[j], BadgeOpen + FullLabel(t, shown[j]) + TitleEnd))
  {
    var shown := Displayed(items, exclude);
    forall j | 0 <= j < |shown|
      ensures StartsWith(Badges(t, shown)[j], BadgeOpen + FullLabel(t, shown[j]) + TitleEnd)
    {
      BadgeShape(t, shown[j]);
    }
    if exclude.Some? && exclude.value != "" {
      FilterIsSubsequence(items, a => a != exclude.value);
    } else {
      SubsequenceRefl(items);
    }
  }

  // ------------------------------------------------------------ grouping

  /** A table row: the record's position in the audit's list, and the record. */
  type Row = (int, Dict)

  /** Primary area → primary system → rows. */
  type Groups = map<Json, map<Json, seq<Row>>>

  /** The row's record can be read and both of its primary values can key a dict. */
  predicate Groupable(row: Row)
  {
    PrimaryArea(row.1).Some? && Hashable(PrimaryArea(row.1).value)
    && PrimarySystem(row.1).Some? && Hashable(PrimarySystem(row.1).value)
  }

  predicate AllGroupable(rows: seq<Row>)
  {
    forall i :: 0 <= i < |rows| ==> Groupable(rows[i])
  }

  function GroupKey(row: Row): (Json, Json)
    requires Groupable(row)
  {
    (PrimaryArea(row.1).value, PrimarySystem(row.1).value)
  }

  /** The group keys of the rows, in row order. */
  function GroupKeys(rows: seq<Row>): (keys: seq<(Json, Json)>)
    requires AllGroupable(rows)
    ensures |keys| == |rows|
  {
    if rows == [] then [] else GroupKeys(rows[..|rows| - 1]) + [GroupKey(rows[|rows| - 1])]
  }

  /** Appending a row to its group, creating the area and system entries as needed. */
  function AddRow<A, S, R>(g: map<A, map<S, seq<R>>>, key: (A, S), row: R): map<A, map<S, seq<R>>>
  {
    var inner := if key.0 in g then g[key.0] else map[];
    var group := if key.1 in inner then inner[key.1] else [];
    g[key.0 := inner[key.1 := group + [row]]]
  }

  /** The grouping of the rows, one row at a time. */
  function Grouped(rows: seq<Row>): Groups
    requires AllGroupable(rows)
  {
    if rows == [] then map[]
    else
      var last := rows[|rows| - 1];
      AddRow(Grouped(rows[..|rows| - 1]), GroupKey(last), last)
  }

  lemma AllGroupableSnoc(rows: seq<Row>, i: nat)
    requires i < |rows| && AllGroupable(rows[..i]) && Groupable(rows[i])
    ensures AllGroupable(rows[..i + 1])
  {
    assert rows[..i + 1] == rows[..i] + [rows[i]];
  }

  lemma GroupedSnoc(rows: seq<Row>, i: nat)
    requires i < |rows| && AllGroupable(rows[..i + 1])
    ensures AllGroupable(rows[..i])
    ensures Grouped(rows[..i + 1]) == AddRow(Grouped(rows[..i]), GroupKey(rows[i]), rows[i])
    ensures GroupKeys(rows[..i + 1]) == GroupKeys(rows[..i]) + [GroupKey(rows[i])]
  {
    assert rows[..i + 1][..i] == rows[..i];
  }

  // The key order of the nested dicts. A Python dict iterates its keys in
  // insertion order; the lemmas below are generic in the key and row types.

  /** The outer keys of the group keys, in row order. */
  function KeyAreas<A, S>(keys: seq<(A, S)>): seq<A>
  {
    if keys == [] then [] else KeyAreas(keys[..|keys| - 1]) + [keys[|keys| - 1].0]
  }

  /** The `i`-th area is the outer key of the `i`-th key. */
  lemma {:induction false} KeyAreasAt<A, S>(keys: seq<(A, S)>, i: nat)
    requires i < |keys|
    ensures |KeyAreas(keys)| == |keys| && KeyAreas(keys)[i] == keys[i].0
  {
    var n := |keys| - 1;
    if i < n {
      KeyAreasAt(keys[..n], i);
    } else if n > 0 {
      KeyAreasAt(keys[..n], 0);
    }
  }

  /** The inner keys of the group keys whose outer key is `area`, in row order. */
  function KeySystems<A(==), S>(keys: seq<(A, S)>, area: A): seq<S>
  {
    if keys == [] then []
    else
      var k := keys[|keys| - 1];
      KeySystems(keys[..|keys| - 1], area) + (if k.0 == area then [k.1] else [])
  }

  /** One more key adds its outer key to the areas. */
  lemma KeysSnoc<A, S>(keys: seq<(A, S)>, k: (A, S))
    ensures KeyAreas(keys + [k]) == KeyAreas(keys) + [k.0]
  {
    assert (keys + [k])[..|keys|] == keys;
  }

  /** One more key adds its inner key to its own area's systems only. */
  lemma KeySystemsSnoc<A, S>(keys: seq<(A, S)>, k: (A, S), area: A)
    ensures KeySystems(keys + [k], area) == KeySystems(keys, area) + (if k.0 == area then [k.1] else [])
  {
    assert (keys + [k])[..|keys|] == keys;
  }

  /** Adding a row adds its area and, under that area, its system; every other area is kept. */
  lemma AddRowKeys<A, S, R>(g: map<A, map<S, seq<R>>>, key: (A, S), row: R)
    ensures var g' := AddRow(g, key, row);
      g'.Keys == g.Keys + {key.0}
      && g'[key.0].Keys == (if key.0 in g then g[key.0].Keys else {}) + {key.1}
      && forall a :: a in g && a != key.0 ==> g'[a] == g[a]
  {
  }

  /** The outer dict's keys are those `areas` lists, in first-seen order. */
  ghost predicate AreaState<A(!new), S, R>(keys: seq<(A, S)>, grouped: map<A, map<S, seq<R>>>, areas: seq<A>)
  {
    areas == Distinct(KeyAreas(keys)) && forall a :: a in grouped <==> a in areas
  }

  /** `systems` holds each area's inner key order, and an area not yet seen has no systems. */
  ghost predicate SystemState<A(!new), S(!new), R>(keys: seq<(A, S)>, grouped: map<A, map<S, seq<R>>>, systems: map<A, seq<S>>)
  {
    grouped.Keys == systems.Keys && SystemOrders(keys, systems) && SystemMembers(grouped, systems) && SystemsUnseen(keys, systems)
  }

  /** Each area's system order is the first-seen order of its inner keys. */
  ghost predicate SystemOrders<A(!new), S>(keys: seq<(A, S)>, systems: map<A, seq<S>>)
  {
    forall a :: a in systems ==> systems[a] == Distinct(KeySystems(keys, a))
  }

  /** Each area's inner dict has exactly the keys its system order lists. */
  ghost predicate SystemMembers<A(!new), S(!new), R>(grouped: map<A, map<S, seq<R>>>, systems: map<A, seq<S>>)
  {
    forall a :: a in grouped && a in systems ==> forall sys :: sys in grouped[a] <==> sys in systems[a]
  }

  /** An area with no system order has no keys yet. */
  ghost predicate SystemsUnseen<A(!new), S>(keys: seq<(A, S)>, systems: map<A, seq<S>>)
  {
    forall a :: a !in systems ==> KeySystems(keys, a) == []
  }

  /**
   * The loop's dicts after the rows with group keys `keys`: `areas` is the
   * outer dict's key order and `systems` each inner dict's key order.
   */
  ghost predicate GroupState<A(!new), S(!new), R>(keys: seq<(A, S)>, grouped: map<A, map<S, seq<R>>>,
                                               areas: seq<A>, systems: map<A, seq<S>>)
  {
    AreaState(keys, grouped, areas) && SystemState(keys, grouped, systems)
  }

  /** The order a row leaves behind: its area appended when new, its system appended under it when new. */
  function NextAreas<A(==), S, R>(grouped: map<A, map<S, seq<R>>>, areas: seq<A>, key: (A, S)): seq<A>
  {
    if key.0 in grouped then areas else areas + [key.0]
  }

  function NextSystems<A(==), S(==), R>(grouped: map<A, map<S, seq<R>>>, systems: map<A, seq<S>>, key: (A, S)): map<A, seq<S>>
  {
    var inner := if key.0 in grouped then grouped[key.0] else map[];
    var order := if key.0 in systems then systems[key.0] else [];
    systems[key.0 := if key.1 in inner then order else order + [key.1]]
  }

  lemma AreaStateStep<A(!new), S, R>(keys: seq<(A, S)>, key: (A, S), row: R, grouped: map<A, map<S, seq<R>>>, areas: seq<A>)
    requires AreaState(keys, grouped, areas)
    ensures AreaState(keys + [key], AddRow(grouped, key, row), NextAreas(grouped, areas, key))
  {
    KeysSnoc(keys, key);
    DistinctAppend(KeyAreas(keys), key.0);
    AddRowKeys(grouped, key, row);
  }

  lemma SystemStateStep<A(!new), S(!new), R>(keys: seq<(A, S)>, key: (A, S), row: R, grouped: map<A, map<S, seq<R>>>, systems: map<A, seq<S>>)
    requires SystemState(keys, grouped, systems)
    ensures SystemState(keys + [key], AddRow(grouped, key, row), NextSystems(grouped, systems, key))
  {
    AddRowKeys(grouped, key, row);
    SystemOrderStep(keys, key, grouped, systems);
    SystemMemberStep(keys, key, row, grouped, systems);
    SystemUnseenStep(keys, key, grouped, systems);
  }

  /** Each area's system order stays the first-seen order of its keys. */
  lemma SystemOrderStep<A(!new), S(!new), R>(keys: seq<(A, S)>, key: (A, S), grouped: map<A, map<S, seq<R>>>, systems: map<A, seq<S>>)
    requires SystemState(keys, grouped, systems)
    ensures SystemOrders(keys + [key], NextSystems(grouped, systems, key))
  {
    var keys', systems' := keys + [key], NextSystems(grouped, systems, key);
    forall a | a in systems'
      ensures systems'[a] == Distinct(KeySystems(keys', a))
    {
      KeySystemsSnoc(keys, key, a);
      if a == key.0 {
        OwnSystemsStep(keys, key, grouped, systems);
        assert KeySystems(keys', a) == KeySystems(keys, a) + [key.1];
      } else {
        assert KeySystems(keys', a) == KeySystems(keys, a) + [];
        assert KeySystems(keys', a) == KeySystems(keys, a);
        assert a in systems && systems'[a] == systems[a];
      }
    }
  }

  /** Each area's inner dict and its system order keep the same members. */
  lemma SystemMemberStep<A(!new), S(!new), R>(keys: seq<(A, S)>, key: (A, S), row: R, grouped: map<A, map<S, seq<R>>>, systems: map<A, seq<S>>)
    requires SystemState(keys, grouped, systems)
    ensures SystemMembers(AddRow(grouped, key, row), NextSystems(grouped, systems, key))
  {
    var g', systems' := AddRow(grouped, key, row), NextSystems(grouped, systems, key);
    AddRowKeys(grouped, key, row);
    forall a, sys | a in systems'
      ensures sys in g'[a] <==> sys in systems'[a]
    {
      if a == key.0 {
        OwnMemberStep(keys, key, row, grouped, systems, sys);
      } else {
        assert a in systems && systems'[a] == systems[a] && g'[a] == grouped[a];
      }
    }
  }

  /** An area no row has reached still has no systems. */
  lemma SystemUnseenStep<A(!new), S(!new), R>(keys: seq<(A, S)>, key: (A, S), grouped: map<A, map<S, seq<R>>>, systems: map<A, seq<S>>)
    requires SystemState(keys, grouped, systems)
    ensures SystemsUnseen(keys + [key], NextSystems(grouped, systems, key))
  {
    forall a | a !in NextSystems(grouped, systems, key)
      ensures KeySystems(keys + [key], a) == []
    {
      KeySystemsSnoc(keys, key, a);
    }
  }

  /** Under the row's own area, the inner dict and the order gain the row's system alike. */
  lemma OwnMemberStep<A(!new), S(!new), R>(keys: seq<(A, S)>, key: (A, S), row: R, grouped: map<A, map<S, seq<R>>>,
                                           systems: map<A, seq<S>>, sys: S)
    requires SystemState(keys, grouped, systems)
    ensures sys in AddRow(grouped, key, row)[key.0] <==> sys in NextSystems(grouped, systems, key)[key.0]
  {
    AddRowKeys(grouped, key, row);
    OwnSystemsStep(keys, key, grouped, systems);
    var ks := KeySystems(keys, key.0);
    DistinctMember(ks + [key.1], sys);
    DistinctMember(ks, sys);
    if key.0 in grouped {
      assert sys in grouped[key.0] <==> sys in systems[key.0];
    }
  }

  /** The row's own area: its system order gains the row's system exactly when that system is new. */
  lemma OwnSystemsStep<A(!new), S(!new), R>(keys: seq<(A, S)>, key: (A, S), grouped: map<A, map<S, seq<R>>>, systems: map<A, seq<S>>)
    requires SystemState(keys, grouped, systems)
    ensures var inner := if key.0 in grouped then grouped[key.0] else map[];
      var ks := KeySystems(keys, key.0);
      NextSystems(grouped, systems, key)[key.0] == Distinct(ks + [key.1])
      && (key.1 in inner <==> key.1 in ks)
  {
    var inner := if key.0 in grouped then grouped[key.0] else map[];
    var ks := KeySystems(keys, key.0);
    var order := if key.0 in systems then systems[key.0] else [];
    assert order == Distinct(ks);
    DistinctMember(ks, key.1);
    assert key.1 in inner <==> key.1 in order;
    DistinctAppend(ks, key.1);
  }

  /** One more row keeps the grouping and its key order in step with the rows read so far. */
  lemma GroupLoopStep(rows: seq<Row>, i: nat, grouped: Groups, areas: seq<Json>, systems: map<Json, seq<Json>>)
    requires i < |rows| && AllGroupable(rows[..i]) && Groupable(rows[i])
    requires grouped == Grouped(rows[..i]) && GroupState(GroupKeys(rows[..i]), grouped, areas, systems)
    ensures AllGroupable(rows[..i + 1])
    ensures var key := GroupKey(rows[i]);
      Grouped(rows[..i + 1]) == AddRow(grouped, key, rows[i])
      && GroupState(GroupKeys(rows[..i + 1]), AddRow(grouped, key, rows[i]),
                    NextAreas(grouped, areas, key), NextSystems(grouped, systems, key))
  {
    AllGroupableSnoc(rows, i);
    GroupedSnoc(rows, i);
    var key := GroupKey(rows[i]);
    AreaStateStep(GroupKeys(rows[..i]), key, rows[i], grouped, areas);
    SystemStateStep(GroupKeys(rows[..i]), key, rows[i], grouped, systems);
  }

  /**
   * `group_fehlerbilder`: rows grouped by primary area, then primary system.
   * It fails exactly when some row's record cannot be read or a primary
   * value cannot key a dict. Beside the grouping it returns the order the
   * views iterate it in: `areas` is the outer dict's key order, and
   * `systems[a]` the key order of area `a`'s dict; both list exactly the
   * keys, each in the order its first row appears.
   */
  method GroupFehlerbilder(rows: seq<Row>) returns (r: Option<Groups>, areas: seq<Json>, systems: map<Json, seq<Json>>)
    ensures r.Some? <==> AllGroupable(rows)
    ensures r.Some? ==> r.value == Grouped(rows)
    ensures r.Some? ==> areas == Distinct(KeyAreas(GroupKeys(rows)))
    ensures r.Some? ==> forall a :: a in r.value <==> a in areas
    ensures r.Some? ==> forall a :: a in r.value <==> a in systems
    ensures r.Some? ==> forall a :: a in systems ==> systems[a] == Distinct(KeySystems(GroupKeys(rows), a))
    ensures r.Some? ==> forall a, sys :: a in r.value ==> (sys in r.value[a] <==> sys in systems[a])
  {
    var grouped: Groups := map[];
    areas, systems := [], map[];
    for i := 0 to |rows|
      invariant AllGroupable(rows[..i])
      invariant grouped == Grouped(rows[..i])
      invariant GroupState(GroupKeys(rows[..i]), grouped, areas, systems)
    {
      var (idx, rec) := rows[i];
      var bereich := PrimaryArea(rec);
      var system := PrimarySystem(rec);
      if bereich.None? || !Hashable(bereich.value) || system.None? || !Hashable(system.value) {
        assert !Groupable(rows[i]);
        return None, areas, systems;
      }
      var key := (bereich.value, system.value);
      GroupLoopStep(rows, i, grouped, areas, systems);
      areas, systems := NextAreas(grouped, areas, key), NextSystems(grouped, systems, key);
      var inner := if bereich.value in grouped then grouped[bereich.value] else map[];
      var group := if system.value in inner then inner[system.value] else [];
      grouped := grouped[bereich.value := inner[system.value := group + [(idx, rec)]]];
    }
    assert rows[..|rows|] == rows;
    r := Some(grouped);
  }

  /**
   * The views meet the areas in the order their first rows come: wherever a
   * row of a later area sits, a row of each earlier area came before it.
   */
  lemma AreasInFirstRowOrder(rows: seq<Row>, i: nat, j: nat, q: nat) returns (p: nat)
    requires AllGroupable(rows)
    requires i < j < |Distinct(KeyAreas(GroupKeys(rows)))| && q < |rows|
    requires GroupKey(rows[q]).0 == Distinct(KeyAreas(GroupKeys(rows)))[j]
    ensures p < q && GroupKey(rows[p]).0 == Distinct(KeyAreas(GroupKeys(rows)))[i]
  {
    var areas := KeyAreas(GroupKeys(rows));
    GroupKeyAt(rows, q);
    KeyAreasAt(GroupKeys(rows), q);
    p := DistinctFirstOrder(areas, i, j, q);
    GroupKeyAt(rows, p);
    KeyAreasAt(GroupKeys(rows), p);
  }

  /** The rows whose group key is `key`. */
  function InGroup(rows: seq<Row>, key: (Json, Json)): seq<Row>
  {
    Filter(rows, row => Groupable(row) && GroupKey(row) == key)
  }

  /**
   * A group exists exactly for the keys some row has, and holds exactly the
   * rows with that key, in input order.
   */
  lemma {:induction false} GroupedIsFilter(rows: seq<Row>, key: (Json, Json))
    requires AllGroupable(rows)
    ensures var g := Grouped(rows);
            (key.0 in g && key.1 in g[key.0] <==> key in GroupKeys(rows))
            && (key.0 in g && key.1 in g[key.0] ==> g[key.0][key.1] == InGroup(rows, key))
  {
    if rows != [] {
      var n := |rows| - 1;
      var init, last := rows[..n], rows[n];
      assert rows[..n + 1] == rows;
      GroupedSnoc(rows, n);
      GroupedIsFilter(init, key);
      FilterSnoc(rows, n, row => Groupable(row) && GroupKey(row) == key);
      assert InGroup(rows, key) == InGroup(init, key) + (if GroupKey(last) == key then [last] else []);
      if GroupKey(last) == key && !(key.0 in Grouped(init) && key.1 in Grouped(init)[key.0]) {
        InGroupEmpty(init, key);
      }
    }
  }

  /** No row has the key, so its group would be empty. */
  lemma InGroupEmpty(rows: seq<Row>, key: (Json, Json))
    requires AllGroupable(rows) && key !in GroupKeys(rows)
    ensures InGroup(rows, key) == []
  {
    var r := InGroup(rows, key);
    if r != [] {
      assert r[0] in r;
      var i :| 0 <= i < |rows| && rows[i] == r[0];
      GroupKeyAt(rows, i);
    }
  }

  /**
   * Every area that has an entry has some system under it, and every system
   * group under it comes from a row with that area and that system.
   */
  lemma GroupedAreas(rows: seq<Row>, area: Json)
    requires AllGroupable(rows) && area in Grouped(rows)
    ensures Grouped(rows)[area] != map[]
    ensures forall system :: system in Grouped(rows)[area] ==>
              exists i :: 0 <= i < |rows| && GroupKey(rows[i]) == (area, system)
  {
    var system := AreaWitness(rows, area);
    GroupedIsFilter(rows, (area, system));
    assert system in Grouped(rows)[area];
    forall s | s in Grouped(rows)[area]
      ensures exists i :: 0 <= i < |rows| && GroupKey(rows[i]) == (area, s)
    {
      GroupedIsFilter(rows, (area, s));
      var i := KeyIndex(rows, (area, s));
    }
  }

  lemma {:induction false} AreaWitness(rows: seq<Row>, area: Json) returns (system: Json)
    requires AllGroupable(rows) && area in Grouped(rows)
    ensures (area, system) in GroupKeys(rows)
  {
    var n := |rows| - 1;
    assert rows[..n + 1] == rows;
    GroupedSnoc(rows, n);
    if GroupKey(rows[n]).0 == area {
      system := GroupKey(rows[n]).1;
    } else {
      system := AreaWitness(rows[..n], area);
    }
  }

  /** A key among the group keys is the key of some row. */
  lemma KeyIndex(rows: seq<Row>, key: (Json, Json)) returns (i: nat)
    requires AllGroupable(rows) && key in GroupKeys(rows)
    ensures i < |rows| && GroupKey(rows[i]) == key
  {
    var keys := GroupKeys(rows);
    i :| 0 <= i < |keys| && keys[i] == key;
    GroupKeyAt(rows, i);
  }

  /** Every row sits in the group of its own key and in no other group. */
  lemma RowInItsGroup(rows: seq<Row>, i: nat)
    requires AllGroupable(rows) && i < |rows|
    ensures var g, k := Grouped(rows), GroupKey(rows[i]);
            k.0 in g && k.1 in g[k.0] && rows[i] in g[k.0][k.1]
            && forall a, s :: a in g && s in g[a] && (a, s) != k ==> rows[i] !in g[a][s]
  {
    var k := GroupKey(rows[i]);
    GroupedIsFilter(rows, k);
    GroupKeyAt(rows, i);
    assert rows[i] in InGroup(rows, k) by {
      assert rows[i] in rows;
    }
    var g := Grouped(rows);
    forall a, s | a in g && s in g[a] && (a, s) != k
      ensures rows[i] !in g[a][s]
    {
      RowInNoOtherGroup(rows, i, (a, s));
    }
  }

  /** No row sits in a group other than its own. */
  lemma RowInNoOtherGroup(rows: seq<Row>, i: nat, key: (Json, Json))
    requires AllGroupable(rows) && i < |rows|
    requires key != GroupKey(rows[i])
    ensures var g := Grouped(rows);
            key.0 in g && key.1 in g[key.0] ==> rows[i] !in g[key.0][key.1]
  {
    GroupedIsFilter(rows, key);
  }

  lemma {:induction false} GroupKeyAt(rows: seq<Row>, i: nat)
    requires AllGroupable(rows) && i < |rows|
    ensures GroupKeys(rows)[i] == GroupKey(rows[i])
  {
    var n := |rows| - 1;
    assert rows[..n + 1] == rows;
    GroupedSnoc(rows, n);
    if i < n {
      GroupKeyAt(rows[..n], i);
    }
  }

  /** The size of a group, 0 when it does not exist. */
  function GroupSize(g: Groups, key: (Json, Json)): nat
  {
    if key.0 in g && key.1 in g[key.0] then |g[key.0][key.1]| else 0
  }

  /** The sizes of the groups at `keys`, added up. */
  function SumSizes(g: Groups, keys: seq<(Json, Json)>): nat
  {
    if keys == [] then 0 else SumSizes(g, keys[..|keys| - 1]) + GroupSize(g, keys[|keys| - 1])
  }

  /** Each group's size is the number of rows with its key. */
  lemma {:induction false} GroupSizeIsTally(rows: seq<Row>, key: (Json, Json))
    requires AllGroupable(rows)
    ensures var t := Tally(GroupKeys(rows));
            GroupSize(Grouped(rows), key) == if key in t then t[key] else 0
  {
    if rows != [] {
      var n := |rows| - 1;
      assert rows[..n + 1] == rows;
      GroupedSnoc(rows, n);
      GroupSizeIsTally(rows[..n], key);
      TallyAppend(GroupKeys(rows[..n]), GroupKey(rows[n]));
    }
  }

  lemma {:induction false} SumSizesTally(rows: seq<Row>, keys: seq<(Json, Json)>)
    requires AllGroupable(rows)
    ensures SumSizes(Grouped(rows), keys) == SumOver(Tally(GroupKeys(rows)), keys)
  {
    if keys != [] {
      SumSizesTally(rows, keys[..|keys| - 1]);
      GroupSizeIsTally(rows, keys[|keys| - 1]);
    }
  }

  /** The groups' sizes, over the group keys in first-seen order, add up to the number of rows. */
  lemma GroupSizesSum(rows: seq<Row>)
    requires AllGroupable(rows)
    ensures SumSizes(Grouped(rows), Distinct(GroupKeys(rows))) == |rows|
  {
    SumSizesTally(rows, Distinct(GroupKeys(rows)));
    TallySum(GroupKeys(rows));
  }

  // ------------------------------------------------------------ row filters

  /** The row's `fehler` can be read. */
  predicate Readable(row: Row)
  {
    FehlerOf(row.1).Some?
  }

  predicate AllReadable(rows: seq<Row>)
  {
    forall i :: 0 <= i < |rows| ==> Readable(rows[i])
  }

  /** `_status_flag(rec) != "Closed"`. */
  predicate IsOpenRow(row: Row)
  {
    Readable(row) && Get(FehlerOf(row.1).value, "CaseStatus", Str("Open")) != Str("Closed")
  }

  /** `_nacharbeit_flag(rec)`. */
  predicate NacharbeitDone(row: Row)
  {
    Readable(row) && Truthy(Get(FehlerOf(row.1).value, "Nacharbeit_done", Bool(false)))
  }

  predicate NacharbeitOpen(row: Row)
  {
    Readable(row) && !Truthy(Get(FehlerOf(row.1).value, "Nacharbeit_done", Bool(false)))
  }

  const OnlyNacharbeitYes: string := "Nur Nacharbeit = Ja"
  const OnlyNacharbeitNo: string := "Nur Nacharbeit = Nein"

  /** The rows kept by the open-only switch. */
  function OpenFilter(rows: seq<Row>, onlyOpen: bool): Option<seq<Row>>
  {
    if !onlyOpen then Some(rows)
    else if !AllReadable(rows) then None
    else Some(Filter(rows, IsOpenRow))
  }

  /** The rows kept by the Nacharbeit choice; any other choice keeps them all. */
  function NacharbeitFilter(rows: seq<Row>, choice: string): Option<seq<Row>>
  {
    if choice != OnlyNacharbeitYes && choice != OnlyNacharbeitNo then Some(rows)
    else if !AllReadable(rows) then None
    else if choice == OnlyNacharbeitYes then Some(Filter(rows, NacharbeitDone))
    else Some(Filter(rows, NacharbeitOpen))
  }

  /** The table's status and Nacharbeit filters, one after the other. */
  function FilterRows(rows: seq<Row>, onlyOpen: bool, choice: string): Option<seq<Row>>
  {
    match OpenFilter(rows, onlyOpen)
    case None => None
    case Some(open) => NacharbeitFilter(open, choice)
  }

  /** The row passes both filters. */
  predicate RowKept(row: Row, onlyOpen: bool, choice: string)
  {
    (onlyOpen ==> IsOpenRow(row))
    && (choice == OnlyNacharbeitYes ==> NacharbeitDone(row))
    && (choice == OnlyNacharbeitNo ==> NacharbeitOpen(row))
  }

  /**
   * The filters keep, in order, exactly the rows that pass them; they fail
   * only when one is switched on and some row's `fehler` cannot be read.
   */
  lemma FilterRowsExact(rows: seq<Row>, onlyOpen: bool, choice: string)
    ensures var r := FilterRows(rows, onlyOpen, choice);
            (r.None? <==> (onlyOpen || choice == OnlyNacharbeitYes || choice == OnlyNacharbeitNo) && !AllReadable(rows))
            && (r.Some? ==> IsSubsequence(r.value, rows)
                            && forall row :: row in r.value <==> row in rows && RowKept(row, onlyOpen, choice))
  {
    var open := OpenFilter(rows, onlyOpen);
    if onlyOpen {
      FilterIsSubsequence(rows, IsOpenRow);
    } else {
      SubsequenceRefl(rows);
    }
    if open.Some? {
      var o := open.value;
      if onlyOpen {
        forall i | 0 <= i < |o|
          ensures Readable(o[i])
        {
          assert o[i] in o;
        }
      }
      if choice == OnlyNacharbeitYes && AllReadable(o) {
        FilterIsSubsequence(o, NacharbeitDone);
        SubsequenceTrans(Filter(o, NacharbeitDone), o, rows);
      } else if choice == OnlyNacharbeitNo && AllReadable(o) {
        FilterIsSubsequence(o, NacharbeitOpen);
        SubsequenceTrans(Filter(o, NacharbeitOpen), o, rows);
      }
      if (choice == OnlyNacharbeitYes || choice == OnlyNacharbeitNo) && !onlyOpen && !AllReadable(o) {
        assert !AllReadable(rows);
      }
    }
  }

  /** The values of the row can be read and put in a set. */
  predicate ValuesReadable(row: Row, multiKey: string, singleKey: string)
  {
    var all := AllValues(row.1, multiKey, singleKey);
    all.Some? && forall x :: x in all.value ==> Hashable(x)
  }

  /** `set(get_all_*(rec)) & selected` is not empty. */
  predicate Hits(row: Row, selected: seq<string>, multiKey: string, singleKey: string)
  {
    var all := AllValues(row.1, multiKey, singleKey);
    ValuesReadable(row, multiKey, singleKey) && exists x :: x in all.value && x.Str? && x.s in selected
  }

  /** The area or system multiselect filter; an empty selection keeps every row. */
  function SelectByValues(rows: seq<Row>, selected: seq<string>, multiKey: string, singleKey: string): Option<seq<Row>>
  {
    if selected == [] then Some(rows)
    else if exists i :: 0 <= i < |rows| && !ValuesReadable(rows[i], multiKey, singleKey) then None
    else Some(Filter(rows, row => Hits(row, selected, multiKey, singleKey)))
  }

  function SelectAreas(rows: seq<Row>, selected: seq<string>): Option<seq<Row>>
  {
    SelectByValues(rows, selected, "vehicle_area_multi", "vehicle_area")
  }

  function SelectSystems(rows: seq<Row>, selected: seq<string>): Option<seq<Row>>
  {
    SelectByValues(rows, selected, "system_domain_multi", "system_domain")
  }

  /**
   * A non-empty selection keeps, in order, exactly the rows one of whose
   * values is selected; it fails only on a row whose values cannot be read
   * or put in a set.
   */
  lemma SelectByValuesExact(rows: seq<Row>, selected: seq<string>, multiKey: string, singleKey: string)
    ensures var r := SelectByValues(rows, selected, multiKey, singleKey);
            (r.None? <==> selected != [] && exists i :: 0 <= i < |rows| && !ValuesReadable(rows[i], multiKey, singleKey))
            && (r.Some? ==> IsSubsequence(r.value, rows))
            && (r.Some? && selected != [] ==>
                  forall row :: row in r.value <==> row in rows && Hits(row, selected, multiKey, singleKey))
            && (selected == [] ==> r == Some(rows))
  {
    if selected == [] {
      SubsequenceRefl(rows);
    } else {
      FilterIsSubsequence(rows, row => Hits(row, selected, multiKey, singleKey));
    }
  }
}
