/**
 * One Fehlerbild record of the project index (a dict of JSON values) and
 * the record-level operations of the index logic: the normalisation
 * `ensure_new_fields` with its helpers, the fresh record of
 * `add_image_record`, the copy `clone_image_to_audit` appends, the display
 * name and the schema upgrade of a legacy index.
 */
module Records {
  import opened Wrappers
  import opened Text
  import opened Json
  import opened MediaRefs
  import opened Options

  /** The three per-record lists of layered image entries. */
  const EntryLists: seq<string> := ["ctx_list", "add_fehler_list", "add_after_list"]

  /** The text a string argument receives: a stored string, or "" (falsy) for anything else. */
  function TextArg(v: Json): string
  {
    if v.Str? then v.s else ""
  }

  // ------------------------------------------------------------ list entries

  /** `[f(x) for x in items]`, the effect of a loop that updates every entry in place. */
  function MapEach<X, Y>(items: seq<X>, f: X -> Y): (r: seq<Y>)
    ensures |r| == |items| && forall i :: 0 <= i < |items| ==> r[i] == f(items[i])
  {
    seq(|items|, i requires 0 <= i < |items| => f(items[i]))
  }

  /** A loop over the entries of a list that rewrites each one. */
  method UpdateEach(items: seq<Json>, f: Json -> Json) returns (out: seq<Json>)
    ensures out == MapEach(items, f)
  {
    out := items;
    var i := 0;
    while i < |items|
      invariant 0 <= i <= |items| && |out| == |items|
      invariant forall k :: 0 <= k < i ==> out[k] == f(items[k])
      invariant forall k :: i <= k < |items| ==> out[k] == items[k]
    {
      out := out[i := f(out[i])];
      i := i + 1;
    }
  }

  /**
   * The layered aliases of one list entry: `base` defaults to `raw` and
   * `overlay` to `edited`, then a missing legacy alias takes the layered
   * value. Entries that are not dicts are skipped.
   */
  function MirrorEntry(e: Json): Json
  {
    if !e.Obj? then e
    else
      var d1 := SetDefault(e.fields, "base", Get(e.fields, "raw", Null));
      var d2 := SetDefault(d1, "overlay", Get(d1, "edited", Null));
      var d3 := if Get(d2, "raw", Null) == Null && Get(d2, "base", Null) != Null then d2["raw" := d2["base"]] else d2;
      var d4 := if Get(d3, "edited", Null) == Null && Get(d3, "overlay", Null) != Null then d3["edited" := d3["overlay"]] else d3;
      Obj(d4)
  }

  /** Both layers present, and each legacy alias set wherever its layer is. */
  predicate Mirrored(d: Dict)
  {
    "base" in d && "overlay" in d
    && (d["base"] != Null ==> Get(d, "raw", Null) != Null)
    && (d["overlay"] != Null ==> Get(d, "edited", Null) != Null)
  }

  /**
   * A mirrored entry: its layers exist, a missing layer takes the legacy
   * value, a missing legacy alias takes the layer's value, and no other key
   * changes. Mirroring again changes nothing.
   */
  lemma MirrorEntryFacts(e: Json)
    requires e.Obj?
    ensures var d := e.fields;
      var r := MirrorEntry(e).fields;
      Mirrored(r)
      && ("base" !in d ==> r["base"] == Get(d, "raw", Null))
      && ("base" in d ==> r["base"] == d["base"])
      && ("overlay" !in d ==> r["overlay"] == Get(d, "edited", Null))
      && ("overlay" in d ==> r["overlay"] == d["overlay"])
      && (Get(d, "raw", Null) != Null ==> r["raw"] == d["raw"])
      && (Get(d, "edited", Null) != Null ==> r["edited"] == d["edited"])
      && (forall k :: k != "base" && k != "overlay" && k != "raw" && k != "edited" ==>
            (k in r <==> k in d) && (k in d ==> r[k] == d[k]))
    ensures MirrorEntry(MirrorEntry(e)) == MirrorEntry(e)
  {
    var r := MirrorEntry(e).fields;
    assert SetDefault(r, "base", Get(r, "raw", Null)) == r;
    assert SetDefault(r, "overlay", Get(r, "edited", Null)) == r;
  }

  /**
   * The list a record keeps under `key` once normalised: a falsy value
   * becomes [], a list has every entry mirrored, anything else is kept.
   */
  function MirrorList(v: Json): Json
  {
    if !Truthy(v) then Arr([])
    else if v.Arr? then Arr(MapEach(v.items, MirrorEntry))
    else v
  }

  lemma MirrorListIdempotent(v: Json)
    ensures MirrorList(MirrorList(v)) == MirrorList(v)
  {
    if Truthy(v) && v.Arr? {
      var m := MapEach(v.items, MirrorEntry);
      forall i | 0 <= i < |m|
        ensures MirrorEntry(m[i]) == m[i]
      {
        if v.items[i].Obj? {
          MirrorEntryFacts(v.items[i]);
        }
      }
      assert MapEach(m, MirrorEntry) == m;
    }
  }

  // ------------------------------------------------------------ Fehler meta

  /**
   * `_map_caseclosed_to_status`: a missing status is derived from the
   * `CaseClosed` flag, then the flag is recomputed from the status.
   */
  function MapCaseClosed(f: Dict): Dict
  {
    FlagFromStatus(SetDefault(f, "CaseStatus", StatusOfFlag(Get(f, "CaseClosed", Null))))
  }

  /** The status a `CaseClosed` flag stands for. */
  function StatusOfFlag(flag: Json): Json
  {
    if Truthy(flag) then Str("Closed") else Str("Open")
  }

  /** The flag recomputed from the status. */
  function FlagFromStatus(g: Dict): Dict
  {
    g["CaseClosed" := Bool(Get(g, "CaseStatus", Str("Open")) == Str("Closed"))]
  }

  /**
   * After the mapping the status is present (a stored one kept, a missing
   * one taken from the flag), the flag is true exactly when the status is
   * "Closed", and no other key changes.
   */
  lemma MapCaseClosedFacts(f: Dict)
    ensures var r := MapCaseClosed(f);
      "CaseStatus" in r && "CaseClosed" in r
      && r["CaseClosed"] == Bool(r["CaseStatus"] == Str("Closed"))
      && r["CaseStatus"] == Get(f, "CaseStatus", StatusOfFlag(Get(f, "CaseClosed", Null)))
      && forall k :: k != "CaseStatus" && k != "CaseClosed" ==> (k in r <==> k in f) && (k in f ==> r[k] == f[k])
  {
  }

  lemma MapCaseClosedIdempotent(f: Dict)
    ensures MapCaseClosed(MapCaseClosed(f)) == MapCaseClosed(f)
  {
    var r := MapCaseClosed(f);
    MapCaseClosedFacts(f);
    assert SetDefault(r, "CaseStatus", StatusOfFlag(Get(r, "CaseClosed", Null))) == r;
    assert FlagFromStatus(r) == r;
  }

  /** `[p.strip() for p in parts if p.strip()]`. */
  function StrippedNonEmpty(parts: seq<string>): (r: seq<string>)
    ensures forall i :: 0 <= i < |r| ==> r[i] != ""
  {
    if parts == [] then []
    else (if Strip(parts[0]) != "" then [Strip(parts[0])] else []) + StrippedNonEmpty(parts[1..])
  }

  /** `[x for x in xs if x in FEHLERART_OPTIONS]`. */
  function OnlyOptions(xs: seq<string>): (r: seq<string>)
    ensures forall i :: 0 <= i < |r| ==> r[i] in FehlerartOptions
  {
    if xs == [] then []
    else (if xs[0] in FehlerartOptions then [xs[0]] else []) + OnlyOptions(xs[1..])
  }

  /** The filter keeps exactly the known categories of its input. */
  lemma {:induction false} OnlyOptionsMembers(xs: seq<string>, x: string)
    ensures x in OnlyOptions(xs) <==> x in xs && x in FehlerartOptions
  {
    if xs != [] {
      OnlyOptionsMembers(xs[1..], x);
      assert xs == [xs[0]] + xs[1..];
    }
  }

  /**
   * The Fehlerart list `ensure_new_fields` keeps: a text is split at ',',
   * a list is read item by item with `str`, anything else is dropped;
   * items are stripped, empty ones skipped, unknown ones filtered out.
   */
  function FehlerartValues(v: Json): seq<string>
  {
    OnlyOptions(StrippedNonEmpty(FehlerartParts(v)))
  }

  /** The raw items of a Fehlerart value before stripping and filtering. */
  function FehlerartParts(v: Json): seq<string>
  {
    match v
    case Str(s) => if s == "" then [] else Split(s, ',')
    case Arr(items) => seq(|items|, i requires 0 <= i < |items| => PyStr(items[i]))
    case _ => []
  }

  /** A list of known categories passes stripping unchanged. */
  lemma StrippedKnown(xs: seq<string>)
    requires forall i :: 0 <= i < |xs| ==> xs[i] in FehlerartOptions
    ensures StrippedNonEmpty(xs) == xs
  {
    forall i | 0 <= i < |xs|
      ensures Strip(xs[i]) == xs[i] && xs[i] != ""
    {
      OptionsUnpadded(xs[i]);
    }
    StrippedUnpadded(xs);
  }

  /** Stripping and dropping empty items keeps a list of unpadded, non-empty texts. */
  lemma {:induction false} StrippedUnpadded(xs: seq<string>)
    requires forall i :: 0 <= i < |xs| ==> Strip(xs[i]) == xs[i] && xs[i] != ""
    ensures StrippedNonEmpty(xs) == xs
  {
    if xs != [] {
      StrippedUnpadded(xs[1..]);
      assert xs == [xs[0]] + xs[1..];
    }
  }

  /** A list of known categories passes the category filter unchanged. */
  lemma {:induction false} OnlyKnown(xs: seq<string>)
    requires forall i :: 0 <= i < |xs| ==> xs[i] in FehlerartOptions
    ensures OnlyOptions(xs) == xs
  {
    if xs != [] {
      OnlyKnown(xs[1..]);
      assert xs == [xs[0]] + xs[1..];
    }
  }

  /** A list of known categories is kept exactly, so normalising twice changes nothing. */
  lemma FehlerartKeepsOptions(xs: seq<string>)
    requires forall i :: 0 <= i < |xs| ==> xs[i] in FehlerartOptions
    ensures FehlerartValues(Arr(Strs(xs))) == xs
  {
    PartsOfStrs(xs);
    StrippedKnown(xs);
    OnlyKnown(xs);
  }

  lemma PartsOfStrs(xs: seq<string>)
    ensures FehlerartParts(Arr(Strs(xs))) == xs
  {
    var items := Strs(xs);
    var p := FehlerartParts(Arr(items));
    assert |p| == |xs|;
    forall i | 0 <= i < |xs| ensures p[i] == xs[i] {
      assert items[i] == Str(xs[i]);
    }
  }

  /** Splitting at a separator the head does not contain. */
  lemma {:induction false} SplitAfter(a: string, t: string, sep: char)
    requires sep !in a
    ensures Split(a + [sep] + t, sep) == [a] + Split(t, sep)
  {
    if a != [] {
      SplitAfter(a[1..], t, sep);
      assert (a + [sep] + t)[1..] == a[1..] + [sep] + t;
      assert [a[0]] + a[1..] == a;
    } else {
      assert a + [sep] + t == [sep] + t;
    }
  }

  lemma {:induction false} SplitNone(a: string, sep: char)
    requires sep !in a
    ensures Split(a, sep) == [a]
  {
    if a != [] {
      SplitNone(a[1..], sep);
      assert [a[0]] + a[1..] == a;
    }
  }

  lemma {:induction false} SplitJoin(xs: seq<string>, sep: char)
    requires |xs| > 0 && forall i :: 0 <= i < |xs| ==> sep !in xs[i]
    ensures Split(Join(xs, [sep]), sep) == xs
  {
    if |xs| == 1 {
      SplitNone(xs[0], sep);
    } else {
      SplitJoin(xs[1..], sep);
      SplitAfter(xs[0], Join(xs[1..], [sep]), sep);
      assert xs == [xs[0]] + xs[1..];
    }
  }

  /** Known categories hold no comma. */
  lemma OptionsCommaFree(xs: seq<string>)
    requires forall i :: 0 <= i < |xs| ==> xs[i] in FehlerartOptions
    ensures forall i :: 0 <= i < |xs| ==> ',' !in xs[i]
  {
    forall i | 0 <= i < |xs|
      ensures ',' !in xs[i]
    {
      OptionsUnpadded(xs[i]);
    }
  }

  /** A joined text starting with a non-empty part is non-empty. */
  lemma JoinNonEmpty(xs: seq<string>, sep: string)
    requires |xs| > 0 && xs[0] != ""
    ensures Join(xs, sep) != ""
  {
    if |xs| > 1 {
      assert Join(xs, sep) == xs[0] + sep + Join(xs[1..], sep);
    }
  }

  /** The raw parts of a comma-joined text of comma-free, non-empty-headed parts are those parts. */
  lemma PartsOfJoin(xs: seq<string>)
    requires |xs| > 0 && xs[0] != "" && forall i :: 0 <= i < |xs| ==> ',' !in xs[i]
    ensures FehlerartParts(Str(Join(xs, ","))) == xs
  {
    JoinNonEmpty(xs, ",");
    SplitJoin(xs, ',');
    assert [','] == ",";
  }

  /** A comma-separated text of known categories is split back into exactly those categories. */
  lemma FehlerartSplitsText(xs: seq<string>)
    requires |xs| > 0 && forall i :: 0 <= i < |xs| ==> xs[i] in FehlerartOptions
    ensures FehlerartValues(Str(Join(xs, ","))) == xs
  {
    OptionsCommaFree(xs);
    OptionsUnpadded(xs[0]);
    PartsOfJoin(xs);
    StrippedKnown(xs);
    OnlyKnown(xs);
  }

  /** `RQMRelevant` is taken from the legacy `BQPRelevant` when only that one is set. */
  function RqmFromBqp(f: Dict): Dict
  {
    if "BQPRelevant" in f && "RQMRelevant" !in f then f["RQMRelevant" := Bool(Truthy(f["BQPRelevant"]))] else f
  }

  /** The defaults of the `fehler` dict, in the order `ensure_new_fields` sets them. */
  const FehlerSteps: seq<Default> := [
    Default("RQMRelevant", Fixed(Bool(false))),
    Default("BI_alt", Copy("Kategorie", Fixed(Str("")))),
    Default("Fehlerbeschreibung", Copy("Kommentar_Audit", Fixed(Str("")))),
    Default("Nacharbeit_done", Fixed(Bool(false))),
    Default("BI_neu", Copy("BI_alt", Fixed(Str("")))),
    Default("Nacharbeitsmassnahme", Copy("Massnahme", Copy("Massnahme_geplant", Fixed(Str(""))))),
    Default("Kommentar_Nacharbeit", Copy("Nacharbeit", Fixed(Str("")))),
    Default("vehicle_area", Fixed(Str("Interieur_Vorne"))),
    Default("system_domain", Fixed(Str("Sonstige")))]

  /** The defaults `ensure_new_fields` gives the `fehler` dict before the status mapping. */
  function FehlerDefaults(f: Dict): Dict
  {
    ApplyDefaults(RqmFromBqp(f), FehlerSteps)
  }

  /** A priority outside the list becomes "Mittel". */
  function CheckPriority(f: Dict): Dict
  {
    if InOptions(Get(f, "Prioritaet", Null), PriorityOptions) then f else f["Prioritaet" := Str("Mittel")]
  }

  /** The Fehlerart value replaced by its list of known categories. */
  function NormalizeFehlerart(f: Dict): Dict
  {
    f["Fehlerart" := Arr(Strs(FehlerartValues(Get(f, "Fehlerart", Arr([])))))]
  }

  /** The status mapping, the priority check and the QZ default, in that order. */
  function FehlerTail(d: Dict): Dict
  {
    SetDefault(CheckPriority(MapCaseClosed(d)), "QZStatus", Str("QZS"))
  }

  /** Everything `ensure_new_fields` does to the `fehler` dict after the defaults. */
  function FehlerFinish(d: Dict): Dict
  {
    NormalizeFehlerart(FehlerTail(d))
  }

  /** The normalisation of the record's `fehler` dict. */
  function NormalizeFehler(f: Dict): Dict
  {
    FehlerFinish(FehlerDefaults(f))
  }

  /** The defaults keep every stored value, supply every defaulted key, and add no other key. */
  lemma FehlerDefaultsKeys(f: Dict)
    ensures var r := FehlerDefaults(f);
      (forall k :: k in f ==> k in r && r[k] == f[k])
      && (forall i :: 0 <= i < |FehlerSteps| ==> FehlerSteps[i].key in r)
      && (forall k :: k in r ==> k in f || k in DefaultKeys(FehlerSteps))
  {
    RqmFromBqpFacts(f);
    ApplyDefaultsKeeps(RqmFromBqp(f), FehlerSteps);
    assert DefaultKeys(FehlerSteps)[0] == "RQMRelevant";
  }

  /**
   * The values the defaults leave: `RQMRelevant` taken from `BQPRelevant`
   * when only that is stored, and the listed fallbacks for the rework, the
   * area and the domain.
   */
  lemma FehlerDefaultsValues(f: Dict)
    ensures var r := FehlerDefaults(f);
      Get(r, "RQMRelevant", Null) == Get(f, "RQMRelevant", Bool(Truthy(Get(f, "BQPRelevant", Null))))
      && Get(r, "Nacharbeitsmassnahme", Null) == Get(f, "Nacharbeitsmassnahme", Get(f, "Massnahme", Get(f, "Massnahme_geplant", Str(""))))
      && Get(r, "vehicle_area", Null) == Get(f, "vehicle_area", Str("Interieur_Vorne"))
      && Get(r, "system_domain", Null) == Get(f, "system_domain", Str("Sonstige"))
  {
    var f0 := RqmFromBqp(f);
    RqmFromBqpFacts(f);
    RqmStepValue(f0);
    MassnahmeStepValue(f0);
    AreaStepValue(f0);
    DomainStepValue(f0);
  }

  /**
   * The text fallbacks of the defaults: the old part number from
   * `Kategorie`, the description from `Kommentar_Audit`, the new part number
   * from the old one (as the earlier default left it), and the rework
   * comment from `Nacharbeit`.
   */
  lemma FehlerTextDefaults(f: Dict)
    ensures var r := FehlerDefaults(f);
      Get(r, "BI_alt", Null) == Get(f, "BI_alt", Get(f, "Kategorie", Str("")))
      && Get(r, "Fehlerbeschreibung", Null) == Get(f, "Fehlerbeschreibung", Get(f, "Kommentar_Audit", Str("")))
      && Get(r, "BI_neu", Null) == Get(f, "BI_neu", Get(f, "BI_alt", Get(f, "Kategorie", Str(""))))
      && Get(r, "Kommentar_Nacharbeit", Null) == Get(f, "Kommentar_Nacharbeit", Get(f, "Nacharbeit", Str("")))
  {
    var f0 := RqmFromBqp(f);
    RqmFromBqpFacts(f);
    BiAltStepValue(f0);
    BeschreibungStepValue(f0);
    KommentarStepValue(f0);
    BiNeuStepValue(f0);
  }

  /** `RqmFromBqp` adds at most `RQMRelevant` and changes nothing else. */
  lemma RqmFromBqpFacts(f: Dict)
    ensures var f0 := RqmFromBqp(f);
      (forall j :: j in f ==> j in f0 && f0[j] == f[j])
      && (forall j :: j in f0 ==> j in f || j == "RQMRelevant")
      && Get(f0, "RQMRelevant", Bool(false)) == Get(f, "RQMRelevant", Bool(Truthy(Get(f, "BQPRelevant", Null))))
      && Get(f0, "Massnahme", Null) == Get(f, "Massnahme", Null)
      && Get(f0, "Massnahme_geplant", Null) == Get(f, "Massnahme_geplant", Null)
  {
  }

  /** The `RQMRelevant` default: a stored flag, or false. */
  lemma RqmStepValue(d: Dict)
    ensures Get(ApplyDefaults(d, FehlerSteps), "RQMRelevant", Null) == Get(d, "RQMRelevant", Bool(false))
  {
    StepValue(d, FehlerSteps, 0);
  }

  /** The rework default: a stored value, else `Massnahme`, else `Massnahme_geplant`, else "". */
  lemma MassnahmeStepValue(d: Dict)
    ensures Get(ApplyDefaults(d, FehlerSteps), "Nacharbeitsmassnahme", Null)
            == Get(d, "Nacharbeitsmassnahme", Get(d, "Massnahme", Get(d, "Massnahme_geplant", Str(""))))
  {
    var fill := FehlerSteps[5].fill;
    assert Sources(fill) == ["Massnahme", "Massnahme_geplant"];
    assert FillValue(d, fill.otherwise) == Get(d, "Massnahme_geplant", Str(""));
    StepValue(d, FehlerSteps, 5);
  }

  /** `BI_alt` falls back to `Kategorie`. */
  lemma BiAltStepValue(d: Dict)
    ensures Get(ApplyDefaults(d, FehlerSteps), "BI_alt", Null) == Get(d, "BI_alt", Get(d, "Kategorie", Str("")))
  {
    assert Sources(FehlerSteps[1].fill) == ["Kategorie"];
    StepValue(d, FehlerSteps, 1);
  }

  /** The description falls back to `Kommentar_Audit`. */
  lemma BeschreibungStepValue(d: Dict)
    ensures Get(ApplyDefaults(d, FehlerSteps), "Fehlerbeschreibung", Null)
            == Get(d, "Fehlerbeschreibung", Get(d, "Kommentar_Audit", Str("")))
  {
    assert Sources(FehlerSteps[2].fill) == ["Kommentar_Audit"];
    StepValue(d, FehlerSteps, 2);
  }

  /** The rework comment falls back to `Nacharbeit`. */
  lemma KommentarStepValue(d: Dict)
    ensures Get(ApplyDefaults(d, FehlerSteps), "Kommentar_Nacharbeit", Null)
            == Get(d, "Kommentar_Nacharbeit", Get(d, "Nacharbeit", Str("")))
  {
    assert Sources(FehlerSteps[6].fill) == ["Nacharbeit"];
    StepValue(d, FehlerSteps, 6);
  }

  /** The new part number defaults to the old one as the earlier default left it. */
  lemma BiNeuStepValue(d: Dict)
    ensures Get(ApplyDefaults(d, FehlerSteps), "BI_neu", Null) == Get(d, "BI_neu", Get(d, "BI_alt", Get(d, "Kategorie", Str(""))))
  {
    assert Sources(FehlerSteps[1].fill) == ["Kategorie"];
    CopiedStepValue(d, FehlerSteps, 1, 4, Str(""));
  }

  /** The area default. */
  lemma AreaStepValue(d: Dict)
    ensures Get(ApplyDefaults(d, FehlerSteps), "vehicle_area", Null) == Get(d, "vehicle_area", Str("Interieur_Vorne"))
  {
    StepValue(d, FehlerSteps, 7);
  }

  /** The domain default. */
  lemma DomainStepValue(d: Dict)
    ensures Get(ApplyDefaults(d, FehlerSteps), "system_domain", Null) == Get(d, "system_domain", Str("Sonstige"))
  {
    StepValue(d, FehlerSteps, 8);
  }

  /** `ApplyDefaultsValue` for a step whose key and sources do not occur among the keys before it. */
  lemma StepValue(d: Dict, steps: seq<Default>, i: nat)
    requires i < |steps|
    requires forall j :: 0 <= j < i ==> steps[j].key != steps[i].key && steps[j].key !in Sources(steps[i].fill)
    ensures var r := ApplyDefaults(d, steps);
      steps[i].key in r && r[steps[i].key] == Get(d, steps[i].key, FillValue(d, steps[i].fill))
  {
    assert forall j :: 0 <= j < i ==> DefaultKeys(steps[..i])[j] == steps[j].key;
    ApplyDefaultsValue(d, steps, i);
  }

  /** A key that no default sets passes through the defaults unchanged. */
  lemma FehlerDefaultsOther(f: Dict, k: string)
    requires k != "RQMRelevant" && k !in DefaultKeys(FehlerSteps)
    ensures var r := FehlerDefaults(f); (k in r <==> k in f) && (k in f ==> r[k] == f[k])
  {
    ApplyDefaultsOther(RqmFromBqp(f), FehlerSteps, k);
  }

  /**
   * After the tail the status is present and agrees with the flag, the
   * priority is a listed one (a listed one kept, anything else "Mittel")
   * and the QZ status is present.
   */
  lemma FehlerTailFacts(d: Dict)
    ensures var r := FehlerTail(d);
      "CaseStatus" in r && "CaseClosed" in r
      && r["CaseClosed"] == Bool(r["CaseStatus"] == Str("Closed"))
      && r["CaseStatus"] == Get(d, "CaseStatus", StatusOfFlag(Get(d, "CaseClosed", Null)))
      && "Prioritaet" in r && InOptions(r["Prioritaet"], PriorityOptions)
      && (InOptions(Get(d, "Prioritaet", Null), PriorityOptions) ==> r["Prioritaet"] == d["Prioritaet"])
      && (!InOptions(Get(d, "Prioritaet", Null), PriorityOptions) ==> r["Prioritaet"] == Str("Mittel"))
      && "QZStatus" in r && r["QZStatus"] == Get(d, "QZStatus", Str("QZS"))
  {
    MapCaseClosedFacts(d);
  }

  /** Any other key passes through the tail unchanged. */
  lemma FehlerTailOther(d: Dict, k: string)
    requires k != "CaseStatus" && k != "CaseClosed" && k != "Prioritaet" && k != "QZStatus"
    ensures var r := FehlerTail(d); (k in r <==> k in d) && (k in d ==> r[k] == d[k])
  {
    MapCaseClosedFacts(d);
  }

  /** The category filter touches only `Fehlerart`. */
  lemma NormalizeFehlerartOther(d: Dict)
    ensures var r := NormalizeFehlerart(d);
      forall k :: k != "Fehlerart" ==> (k in r <==> k in d) && (k in d ==> r[k] == d[k])
  {
  }

  /** The finishing steps: the tail's guarantees, and the categories filtered. */
  lemma FehlerFinishFacts(d: Dict)
    ensures var r := FehlerFinish(d);
      "CaseStatus" in r && "CaseClosed" in r
      && r["CaseClosed"] == Bool(r["CaseStatus"] == Str("Closed"))
      && r["CaseStatus"] == Get(d, "CaseStatus", StatusOfFlag(Get(d, "CaseClosed", Null)))
      && "Prioritaet" in r && InOptions(r["Prioritaet"], PriorityOptions)
      && (InOptions(Get(d, "Prioritaet", Null), PriorityOptions) ==> r["Prioritaet"] == d["Prioritaet"])
      && (!InOptions(Get(d, "Prioritaet", Null), PriorityOptions) ==> r["Prioritaet"] == Str("Mittel"))
      && "QZStatus" in r && r["QZStatus"] == Get(d, "QZStatus", Str("QZS"))
      && "Fehlerart" in r && r["Fehlerart"] == Arr(Strs(FehlerartValues(Get(d, "Fehlerart", Arr([])))))
  {
    var t := FehlerTail(d);
    FehlerTailFacts(d);
    FehlerTailOther(d, "Fehlerart");
    NormalizeFehlerartOther(t);
  }

  /** Any other key passes through the finishing steps unchanged. */
  lemma FehlerFinishOther(d: Dict, k: string)
    requires k != "CaseStatus" && k != "CaseClosed" && k != "Prioritaet" && k != "QZStatus" && k != "Fehlerart"
    ensures var r := FehlerFinish(d); (k in r <==> k in d) && (k in d ==> r[k] == d[k])
  {
    FehlerTailOther(d, k);
    NormalizeFehlerartOther(FehlerTail(d));
  }

  /** None of the keys the tail or the category filter set is a defaulted key. */
  lemma TailKeysNotDefaulted()
    ensures "CaseStatus" !in DefaultKeys(FehlerSteps) && "CaseClosed" !in DefaultKeys(FehlerSteps)
    ensures "Prioritaet" !in DefaultKeys(FehlerSteps) && "QZStatus" !in DefaultKeys(FehlerSteps)
    ensures "Fehlerart" !in DefaultKeys(FehlerSteps)
  {
  }

  /** The priority of a normalised `fehler` dict: a listed one is kept, anything else becomes "Mittel". */
  lemma NormalizedPriority(f: Dict)
    ensures var r := NormalizeFehler(f);
      "Prioritaet" in r && InOptions(r["Prioritaet"], PriorityOptions)
      && (InOptions(Get(f, "Prioritaet", Null), PriorityOptions) ==> r["Prioritaet"] == f["Prioritaet"])
      && (!InOptions(Get(f, "Prioritaet", Null), PriorityOptions) ==> r["Prioritaet"] == Str("Mittel"))
  {
    TailKeysNotDefaulted();
    FehlerDefaultsOther(f, "Prioritaet");
    FehlerFinishFacts(FehlerDefaults(f));
  }

  /** The categories of a normalised `fehler` dict: the known categories of the stored value. */
  lemma NormalizedFehlerart(f: Dict)
    ensures var r := NormalizeFehler(f);
      "Fehlerart" in r && r["Fehlerart"] == Arr(Strs(FehlerartValues(Get(f, "Fehlerart", Arr([])))))
      && forall i :: 0 <= i < |r["Fehlerart"].items| ==> InOptions(r["Fehlerart"].items[i], FehlerartOptions)
  {
    TailKeysNotDefaulted();
    FehlerDefaultsOther(f, "Fehlerart");
    FehlerFinishFacts(FehlerDefaults(f));
  }

  /** The status of a normalised `fehler` dict: a stored status is kept and the flag agrees with it. */
  lemma NormalizedStatus(f: Dict)
    ensures var r := NormalizeFehler(f);
      "CaseStatus" in r && "CaseClosed" in r
      && r["CaseClosed"] == Bool(r["CaseStatus"] == Str("Closed"))
      && r["CaseStatus"] == Get(f, "CaseStatus", StatusOfFlag(Get(f, "CaseClosed", Null)))
  {
    TailKeysNotDefaulted();
    FehlerDefaultsOther(f, "CaseStatus");
    FehlerDefaultsOther(f, "CaseClosed");
    FehlerFinishFacts(FehlerDefaults(f));
  }

  /** QZ status, area, domain and RQM flag of a normalised `fehler` dict: stored values kept, defaults otherwise. */
  lemma NormalizedDefaults(f: Dict)
    ensures var r := NormalizeFehler(f);
      "QZStatus" in r && r["QZStatus"] == Get(f, "QZStatus", Str("QZS"))
      && "vehicle_area" in r && r["vehicle_area"] == Get(f, "vehicle_area", Str("Interieur_Vorne"))
      && "system_domain" in r && r["system_domain"] == Get(f, "system_domain", Str("Sonstige"))
      && "RQMRelevant" in r && r["RQMRelevant"] == Get(f, "RQMRelevant", Bool(Truthy(Get(f, "BQPRelevant", Null))))
  {
    var d := FehlerDefaults(f);
    TailKeysNotDefaulted();
    FehlerDefaultsOther(f, "QZStatus");
    FehlerDefaultsKeys(f);
    FehlerDefaultsValues(f);
    FehlerFinishFacts(d);
    FehlerFinishOther(d, "vehicle_area");
    FehlerFinishOther(d, "system_domain");
    FehlerFinishOther(d, "RQMRelevant");
  }

  /** A dict that has every defaulted key is left alone by the defaults. */
  lemma FehlerDefaultsComplete(g: Dict)
    requires forall i :: 0 <= i < |FehlerSteps| ==> FehlerSteps[i].key in g
    ensures FehlerDefaults(g) == g
  {
    assert FehlerSteps[0].key == "RQMRelevant";
    assert RqmFromBqp(g) == g;
    ApplyDefaultsComplete(g, FehlerSteps);
  }

  /** The tail leaves a dict alone whose status, flag, priority and QZ status are already normal. */
  lemma FehlerTailIdle(g: Dict)
    requires "CaseStatus" in g && "CaseClosed" in g && g["CaseClosed"] == Bool(g["CaseStatus"] == Str("Closed"))
    requires InOptions(Get(g, "Prioritaet", Null), PriorityOptions) && "QZStatus" in g
    ensures FehlerTail(g) == g
  {
    assert MapCaseClosed(g) == g;
  }

  /** The finishing steps leave a dict alone that they have already normalised. */
  lemma FehlerFinishIdle(g: Dict, xs: seq<string>)
    requires "CaseStatus" in g && "CaseClosed" in g && g["CaseClosed"] == Bool(g["CaseStatus"] == Str("Closed"))
    requires InOptions(Get(g, "Prioritaet", Null), PriorityOptions) && "QZStatus" in g
    requires forall i :: 0 <= i < |xs| ==> xs[i] in FehlerartOptions
    requires "Fehlerart" in g && g["Fehlerart"] == Arr(Strs(xs))
    ensures FehlerFinish(g) == g
  {
    FehlerTailIdle(g);
    FehlerartKeepsOptions(xs);
    NormalizeFehlerartIdle(g, xs);
  }

  /** The category filter leaves a list alone that it would produce again. */
  lemma NormalizeFehlerartIdle(g: Dict, xs: seq<string>)
    requires "Fehlerart" in g && g["Fehlerart"] == Arr(Strs(xs)) && FehlerartValues(Arr(Strs(xs))) == xs
    ensures NormalizeFehlerart(g) == g
  {
  }

  /** Normalising a normalised `fehler` dict changes nothing. */
  lemma NormalizeFehlerIdempotent(f: Dict)
    ensures NormalizeFehler(NormalizeFehler(f)) == NormalizeFehler(f)
  {
    var d := FehlerDefaults(f);
    var g := NormalizeFehler(f);
    FehlerDefaultsKeys(f);
    TailKeysNotDefaulted();
    forall i | 0 <= i < |FehlerSteps|
      ensures FehlerSteps[i].key in g
    {
      var k := FehlerSteps[i].key;
      assert DefaultKeys(FehlerSteps)[i] == k;
      FehlerFinishOther(d, k);
    }
    FehlerDefaultsComplete(g);
    FehlerFinishFacts(d);
    FehlerFinishIdle(g, FehlerartValues(Get(d, "Fehlerart", Arr([]))));
  }

  // ------------------------------------------------------------ the record

  /** `rec.get("fehler", {}) or {}`: `None` where the value is truthy but not a dict (`.get` raises). */
  function FehlerOf(rec: Dict): Option<Dict>
  {
    var v := Get(rec, "fehler", Obj(map[]));
    if !Truthy(v) then Some(map[]) else if v.Obj? then Some(v.fields) else None
  }

  /** The normalised `fehler` dict of a record; a missing or non-dict value counts as empty. */
  function FehlerValue(rec: Dict): Json
  {
    Obj(NormalizeFehler(DictOr(Get(rec, "fehler", Obj(map[])))))
  }

  /** The defaults of the record itself, in the order `ensure_new_fields` sets them. */
  const RecordSteps: seq<Default> := [
    Default("ctx_list", Fixed(Arr([]))),
    Default("after_raw", Fixed(Null)),
    Default("after_edited", Fixed(Null)),
    Default("add_fehler_list", Fixed(Arr([]))),
    Default("add_after_list", Fixed(Arr([]))),
    Default("videos", Fixed(Arr([]))),
    Default("base_image", Copy("raw", Fixed(Null))),
    Default("overlay", Copy("edited", Fixed(Null))),
    Default("after_base", Copy("after_raw", Fixed(Null))),
    Default("after_overlay", Copy("after_edited", Fixed(Null)))]


  /** The list under `key` replaced by its normalised form. */
  function MirrorAt(d: Dict, key: string): Dict
  {
    d[key := MirrorList(Get(d, key, Null))]
  }

  /** The three entry lists replaced by their normalised forms. */
  function MirrorLists(d: Dict): Dict
  {
    MirrorAt(MirrorAt(MirrorAt(d, "ctx_list"), "add_fehler_list"), "add_after_list")
  }

  /** The record defaults and the list loops, once `fehler` holds the normalised dict `fehler`. */
  function NewFieldsWith(rec: Dict, fehler: Json): Dict
  {
    MirrorLists(ApplyDefaults(rec["fehler" := fehler], RecordSteps))
  }

  /** `ensure_new_fields` on a record, as a value. */
  function NewFields(rec: Dict): Dict
  {
    NewFieldsWith(rec, FehlerValue(rec))
  }

  /** One of the three entry loops of `ensure_new_fields`. */
  method MirrorListIn(d: Dict, key: string) returns (r: Dict)
    ensures r == MirrorAt(d, key)
  {
    var v := Get(d, key, Null);
    if !Truthy(v) {
      r := d[key := Arr([])];
    } else if v.Arr? {
      var items := UpdateEach(v.items, MirrorEntry);
      r := d[key := Arr(items)];
    } else {
      r := d[key := v];
    }
  }

  /** `ensure_new_fields`: the straight-line defaults, then the loops over the three entry lists. */
  method EnsureNewFields(rec: Dict) returns (r: Dict)
    ensures r == NewFields(rec)
  {
    r := rec["fehler" := FehlerValue(rec)];
    r := ApplyDefaults(r, RecordSteps);
    r := MirrorListIn(r, "ctx_list");
    r := MirrorListIn(r, "add_fehler_list");
    r := MirrorListIn(r, "add_after_list");
  }

  /** A normalised list is a list; a falsy value becomes [], and every dict entry is mirrored. */
  lemma MirrorListFacts(v: Json)
    ensures Truthy(v) && !v.Arr? ==> MirrorList(v) == v
    ensures !Truthy(v) ==> MirrorList(v) == Arr([])
    ensures v.Arr? ==> MirrorList(v).Arr? && |MirrorList(v).items| == |v.items|
    ensures v.Arr? ==> forall i :: 0 <= i < |v.items| ==>
              MirrorList(v).items[i] == MirrorEntry(v.items[i])
              && (v.items[i].Obj? ==> MirrorList(v).items[i].Obj? && Mirrored(MirrorList(v).items[i].fields))
  {
    if v.Arr? {
      forall i | 0 <= i < |v.items| && v.items[i].Obj?
        ensures Mirrored(MirrorEntry(v.items[i]).fields)
      {
        MirrorEntryFacts(v.items[i]);
      }
    }
  }

  /** The lists are replaced by their normalised forms and nothing else changes. */
  lemma MirrorListsFacts(d: Dict)
    ensures var r := MirrorLists(d);
      (forall i :: 0 <= i < |EntryLists| ==> EntryLists[i] in r && r[EntryLists[i]] == MirrorList(Get(d, EntryLists[i], Null)))
      && (forall k :: k !in EntryLists ==> (k in r <==> k in d) && (k in d ==> r[k] == d[k]))
  {
  }

  /** Normalising the lists of a dict whose lists are normalised changes nothing. */
  lemma MirrorListsIdle(d: Dict)
    requires "ctx_list" in d && MirrorList(d["ctx_list"]) == d["ctx_list"]
    requires "add_fehler_list" in d && MirrorList(d["add_fehler_list"]) == d["add_fehler_list"]
    requires "add_after_list" in d && MirrorList(d["add_after_list"]) == d["add_after_list"]
    ensures MirrorLists(d) == d
  {
    assert MirrorAt(d, "ctx_list") == d;
  }

  lemma RecordKeysNotDefaulted()
    ensures "fehler" !in DefaultKeys(RecordSteps)
    ensures forall i :: 0 <= i < |EntryLists| ==> EntryLists[i] in DefaultKeys(RecordSteps)
  {
    var ks := DefaultKeys(RecordSteps);
    assert ks[0] == "ctx_list" && ks[3] == "add_fehler_list" && ks[4] == "add_after_list";
  }

  /** The list defaults: the stored value, or []. */
  lemma CtxStepValue(d: Dict)
    ensures Get(ApplyDefaults(d, RecordSteps), "ctx_list", Null) == Get(d, "ctx_list", Arr([]))
  {
    StepValue(d, RecordSteps, 0);
  }

  lemma AddFehlerStepValue(d: Dict)
    ensures Get(ApplyDefaults(d, RecordSteps), "add_fehler_list", Null) == Get(d, "add_fehler_list", Arr([]))
  {
    StepValue(d, RecordSteps, 3);
  }

  lemma AddAfterStepValue(d: Dict)
    ensures Get(ApplyDefaults(d, RecordSteps), "add_after_list", Null) == Get(d, "add_after_list", Arr([]))
  {
    StepValue(d, RecordSteps, 4);
  }

  /** The `base_image` default: the stored value, else `raw`. */
  lemma BaseStepValue(d: Dict)
    ensures Get(ApplyDefaults(d, RecordSteps), "base_image", Null) == Get(d, "base_image", Get(d, "raw", Null))
  {
    StepValue(d, RecordSteps, 6);
  }

  /** The `overlay` default: the stored value, else `edited`. */
  lemma OverlayStepValue(d: Dict)
    ensures Get(ApplyDefaults(d, RecordSteps), "overlay", Null) == Get(d, "overlay", Get(d, "edited", Null))
  {
    StepValue(d, RecordSteps, 7);
  }

  /** The `after_base` default: the stored value, else `after_raw` as its own default left it. */
  lemma AfterBaseStepValue(d: Dict)
    ensures Get(ApplyDefaults(d, RecordSteps), "after_base", Null) == Get(d, "after_base", Get(d, "after_raw", Null))
  {
    CopiedStepValue(d, RecordSteps, 1, 8, Null);
  }

  /** The `after_overlay` default: the stored value, else `after_edited` as its own default left it. */
  lemma AfterOverlayStepValue(d: Dict)
    ensures Get(ApplyDefaults(d, RecordSteps), "after_overlay", Null) == Get(d, "after_overlay", Get(d, "after_edited", Null))
  {
    CopiedStepValue(d, RecordSteps, 2, 9, Null);
  }

  /** The list defaults: a stored list is kept, a missing one becomes []. */
  lemma DefaultsLists(w: Dict)
    ensures var r := ApplyDefaults(w, RecordSteps);
      Get(r, "ctx_list", Null) == Get(w, "ctx_list", Arr([]))
      && Get(r, "add_fehler_list", Null) == Get(w, "add_fehler_list", Arr([]))
      && Get(r, "add_after_list", Null) == Get(w, "add_after_list", Arr([]))
  {
    CtxStepValue(w);
    AddFehlerStepValue(w);
    AddAfterStepValue(w);
  }

  /** A missing list and an empty one normalise alike. */
  lemma MirrorMissing(w: Dict, k: string)
    ensures MirrorList(Get(w, k, Arr([]))) == MirrorList(Get(w, k, Null))
  {
  }

  /** A stored field other than `fehler` and the three lists keeps its value. */
  lemma WithKeep(rec: Dict, x: Json, k: string)
    requires k in rec && k != "fehler" && k != "ctx_list" && k != "add_fehler_list" && k != "add_after_list"
    ensures var n := NewFieldsWith(rec, x); k in n && n[k] == rec[k]
  {
    var w := rec["fehler" := x];
    var d := ApplyDefaults(w, RecordSteps);
    ApplyDefaultsKeeps(w, RecordSteps);
    assert k in w && w[k] == rec[k];
    assert k in d && d[k] == rec[k];
    ListsKeep(d, k);
  }

  /** The normalised `fehler` dict is stored. */
  lemma WithFehlerKept(rec: Dict, x: Json)
    ensures var n := NewFieldsWith(rec, x); "fehler" in n && n["fehler"] == x
  {
    var w := rec["fehler" := x];
    ApplyDefaultsKeeps(w, RecordSteps);
    ListsKeep(ApplyDefaults(w, RecordSteps), "fehler");
  }

  lemma ListsKeep(d: Dict, k: string)
    requires k in d && k != "ctx_list" && k != "add_fehler_list" && k != "add_after_list"
    ensures var n := MirrorLists(d); k in n && n[k] == d[k]
  {
  }

  /** After the defaults and the list loops every record default is present and no other key is added. */
  lemma WithKeys(rec: Dict, x: Json)
    ensures var n := NewFieldsWith(rec, x);
      (forall i :: 0 <= i < |RecordSteps| ==> RecordSteps[i].key in n)
      && (forall k :: k in n ==> k in rec || k == "fehler" || k in DefaultKeys(RecordSteps))
  {
    var w := rec["fehler" := x];
    ApplyDefaultsKeeps(w, RecordSteps);
    RecordKeysNotDefaulted();
    ListsKeys(w, ApplyDefaults(w, RecordSteps));
  }

  lemma ListsKeys(w: Dict, d: Dict)
    requires forall i :: 0 <= i < |RecordSteps| ==> RecordSteps[i].key in d
    requires forall k :: k in d ==> k in w || k in DefaultKeys(RecordSteps)
    requires forall i :: 0 <= i < |EntryLists| ==> EntryLists[i] in DefaultKeys(RecordSteps)
    ensures var n := MirrorLists(d);
      (forall i :: 0 <= i < |RecordSteps| ==> RecordSteps[i].key in n)
      && (forall k :: k in n ==> k in w || k in DefaultKeys(RecordSteps))
  {
    MirrorListsFacts(d);
  }

  /** After the defaults and the list loops each list is the normalised stored list. */
  lemma WithLists(rec: Dict, x: Json)
    ensures var n := NewFieldsWith(rec, x);
      n["ctx_list"] == MirrorList(Get(rec, "ctx_list", Null))
      && n["add_fehler_list"] == MirrorList(Get(rec, "add_fehler_list", Null))
      && n["add_after_list"] == MirrorList(Get(rec, "add_after_list", Null))
  {
    var w := rec["fehler" := x];
    DefaultsLists(w);
    ListValues(w, ApplyDefaults(w, RecordSteps));
    assert Get(w, "ctx_list", Null) == Get(rec, "ctx_list", Null);
    assert Get(w, "add_fehler_list", Null) == Get(rec, "add_fehler_list", Null);
    assert Get(w, "add_after_list", Null) == Get(rec, "add_after_list", Null);
  }

  lemma ListValues(w: Dict, d: Dict)
    requires Get(d, "ctx_list", Null) == Get(w, "ctx_list", Arr([]))
    requires Get(d, "add_fehler_list", Null) == Get(w, "add_fehler_list", Arr([]))
    requires Get(d, "add_after_list", Null) == Get(w, "add_after_list", Arr([]))
    ensures var n := MirrorLists(d);
      n["ctx_list"] == MirrorList(Get(w, "ctx_list", Null))
      && n["add_fehler_list"] == MirrorList(Get(w, "add_fehler_list", Null))
      && n["add_after_list"] == MirrorList(Get(w, "add_after_list", Null))
  {
    MirrorMissing(w, "ctx_list");
    MirrorMissing(w, "add_fehler_list");
    MirrorMissing(w, "add_after_list");
  }

  /**
   * `base_image` and `overlay` default to the legacy `raw` and `edited`, and
   * `after_base` and `after_overlay` to `after_raw` and `after_edited`.
   */
  lemma WithLayers(rec: Dict, x: Json)
    ensures var n := NewFieldsWith(rec, x);
      Get(n, "base_image", Null) == Get(rec, "base_image", Get(rec, "raw", Null))
      && Get(n, "overlay", Null) == Get(rec, "overlay", Get(rec, "edited", Null))
      && Get(n, "after_base", Null) == Get(rec, "after_base", Get(rec, "after_raw", Null))
      && Get(n, "after_overlay", Null) == Get(rec, "after_overlay", Get(rec, "after_edited", Null))
  {
    var w := rec["fehler" := x];
    LayersAfterDefaults(ApplyDefaults(w, RecordSteps));
    WithMainLayers(rec, w);
    WithAfterLayers(rec, w);
  }

  /** The main layer defaults, read back through the record with `fehler` replaced. */
  lemma WithMainLayers(rec: Dict, w: Dict)
    requires forall k :: k != "fehler" ==> (k in w <==> k in rec) && (k in rec ==> w[k] == rec[k])
    ensures var d := ApplyDefaults(w, RecordSteps);
      Get(d, "base_image", Null) == Get(rec, "base_image", Get(rec, "raw", Null))
      && Get(d, "overlay", Null) == Get(rec, "overlay", Get(rec, "edited", Null))
  {
    BaseStepValue(w);
    OverlayStepValue(w);
    GetOutsideFehler(rec, w, "raw", Null);
    GetOutsideFehler(rec, w, "base_image", Get(rec, "raw", Null));
    GetOutsideFehler(rec, w, "edited", Null);
    GetOutsideFehler(rec, w, "overlay", Get(rec, "edited", Null));
  }

  /** The after-rework layer defaults, read back through the record with `fehler` replaced. */
  lemma WithAfterLayers(rec: Dict, w: Dict)
    requires forall k :: k != "fehler" ==> (k in w <==> k in rec) && (k in rec ==> w[k] == rec[k])
    ensures var d := ApplyDefaults(w, RecordSteps);
      Get(d, "after_base", Null) == Get(rec, "after_base", Get(rec, "after_raw", Null))
      && Get(d, "after_overlay", Null) == Get(rec, "after_overlay", Get(rec, "after_edited", Null))
  {
    AfterBaseStepValue(w);
    AfterOverlayStepValue(w);
    GetOutsideFehler(rec, w, "after_raw", Null);
    GetOutsideFehler(rec, w, "after_base", Get(rec, "after_raw", Null));
    GetOutsideFehler(rec, w, "after_edited", Null);
    GetOutsideFehler(rec, w, "after_overlay", Get(rec, "after_edited", Null));
  }

  /** A key other than `fehler` reads the same from the record and from the record with `fehler` replaced. */
  lemma GetOutsideFehler(rec: Dict, w: Dict, k: string, dflt: Json)
    requires forall k :: k != "fehler" ==> (k in w <==> k in rec) && (k in rec ==> w[k] == rec[k])
    requires k != "fehler"
    ensures Get(w, k, dflt) == Get(rec, k, dflt)
  {
  }

  /** The list loops leave the layer fields alone. */
  lemma LayersAfterDefaults(d: Dict)
    ensures Get(MirrorLists(d), "base_image", Null) == Get(d, "base_image", Null)
    ensures Get(MirrorLists(d), "overlay", Null) == Get(d, "overlay", Null)
    ensures Get(MirrorLists(d), "after_base", Null) == Get(d, "after_base", Null)
    ensures Get(MirrorLists(d), "after_overlay", Null) == Get(d, "after_overlay", Null)
  {
    MirrorListsFacts(d);
  }

  /** On a record whose defaults and lists are all present and normal only the `fehler` dict is replaced. */
  lemma WithIdle(n: Dict, x: Json)
    requires forall i :: 0 <= i < |RecordSteps| ==> RecordSteps[i].key in n
    requires MirrorList(Get(n, "ctx_list", Null)) == Get(n, "ctx_list", Null)
    requires MirrorList(Get(n, "add_fehler_list", Null)) == Get(n, "add_fehler_list", Null)
    requires MirrorList(Get(n, "add_after_list", Null)) == Get(n, "add_after_list", Null)
    ensures NewFieldsWith(n, x) == n["fehler" := x]
  {
    var w := n["fehler" := x];
    FehlerSwapKeeps(n, x);
    DefaultsIdle(w);
    ListsPresent(w);
    MirrorListsIdle(w);
  }

  /** Replacing `fehler` keeps every record default and every list. */
  lemma FehlerSwapKeeps(n: Dict, x: Json)
    requires forall i :: 0 <= i < |RecordSteps| ==> RecordSteps[i].key in n
    ensures var w := n["fehler" := x];
      (forall i :: 0 <= i < |RecordSteps| ==> RecordSteps[i].key in w)
      && Get(w, "ctx_list", Null) == Get(n, "ctx_list", Null)
      && Get(w, "add_fehler_list", Null) == Get(n, "add_fehler_list", Null)
      && Get(w, "add_after_list", Null) == Get(n, "add_after_list", Null)
  {
  }

  /** The record defaults leave a dict alone that has every defaulted key. */
  lemma DefaultsIdle(w: Dict)
    requires forall i :: 0 <= i < |RecordSteps| ==> RecordSteps[i].key in w
    ensures ApplyDefaults(w, RecordSteps) == w
  {
    ApplyDefaultsComplete(w, RecordSteps);
  }

  lemma ListsPresent(w: Dict)
    requires forall i :: 0 <= i < |RecordSteps| ==> RecordSteps[i].key in w
    ensures "ctx_list" in w && "add_fehler_list" in w && "add_after_list" in w
  {
    assert RecordSteps[0].key == "ctx_list" && RecordSteps[3].key == "add_fehler_list" && RecordSteps[4].key == "add_after_list";
  }

  /** `ensure_new_fields` stores the normalised `fehler` dict. */
  lemma NewFieldsFehler(rec: Dict)
    ensures var n := NewFields(rec); "fehler" in n && n["fehler"] == FehlerValue(rec)
  {
    WithFehlerKept(rec, FehlerValue(rec));
  }

  /** `ensure_new_fields` leaves every stored field but `fehler` and the three lists as it was. */
  lemma NewFieldsKeep(rec: Dict, k: string)
    requires k in rec && k != "fehler" && k != "ctx_list" && k != "add_fehler_list" && k != "add_after_list"
    ensures var n := NewFields(rec); k in n && n[k] == rec[k]
  {
    WithKeep(rec, FehlerValue(rec), k);
  }

  /** `ensure_new_fields` supplies every record default and adds no other field. */
  lemma NewFieldsKeys(rec: Dict)
    ensures var n := NewFields(rec);
      (forall i :: 0 <= i < |RecordSteps| ==> RecordSteps[i].key in n)
      && (forall k :: k in n ==> k in rec || k == "fehler" || k in DefaultKeys(RecordSteps))
  {
    WithKeys(rec, FehlerValue(rec));
  }

  /** `ensure_new_fields` leaves each entry list normalised: [] for a falsy value, every dict entry mirrored. */
  lemma NewFieldsLists(rec: Dict)
    ensures var n := NewFields(rec);
      n["ctx_list"] == MirrorList(Get(rec, "ctx_list", Null))
      && n["add_fehler_list"] == MirrorList(Get(rec, "add_fehler_list", Null))
      && n["add_after_list"] == MirrorList(Get(rec, "add_after_list", Null))
  {
    WithLists(rec, FehlerValue(rec));
  }

  /**
   * `base_image` and `overlay` default to the legacy `raw` and `edited`, and
   * `after_base` and `after_overlay` to `after_raw` and `after_edited`.
   */
  lemma NewFieldsLayers(rec: Dict)
    ensures var n := NewFields(rec);
      Get(n, "base_image", Null) == Get(rec, "base_image", Get(rec, "raw", Null))
      && Get(n, "overlay", Null) == Get(rec, "overlay", Get(rec, "edited", Null))
      && Get(n, "after_base", Null) == Get(rec, "after_base", Get(rec, "after_raw", Null))
      && Get(n, "after_overlay", Null) == Get(rec, "after_overlay", Get(rec, "after_edited", Null))
  {
    WithLayers(rec, FehlerValue(rec));
  }

  /** The normalised `fehler` value of a record whose `fehler` dict is already normal is that value. */
  lemma FehlerValueIdle(n: Dict, g: Dict)
    requires "fehler" in n && n["fehler"] == Obj(g) && NormalizeFehler(g) == g
    ensures FehlerValue(n) == n["fehler"]
  {
  }

  /** A record whose `fehler` dict, defaults and lists are all normal is left alone. */
  lemma NormalRecordIdle(n: Dict)
    requires "fehler" in n && FehlerValue(n) == n["fehler"]
    requires forall i :: 0 <= i < |RecordSteps| ==> RecordSteps[i].key in n
    requires MirrorList(Get(n, "ctx_list", Null)) == Get(n, "ctx_list", Null)
    requires MirrorList(Get(n, "add_fehler_list", Null)) == Get(n, "add_fehler_list", Null)
    requires MirrorList(Get(n, "add_after_list", Null)) == Get(n, "add_after_list", Null)
    ensures NewFields(n) == n
  {
    WithIdle(n, n["fehler"]);
    UpdateSame(n, "fehler");
  }

  lemma UpdateSame(n: Dict, k: string)
    requires k in n
    ensures n[k := n[k]] == n
  {
  }

  /** Running `ensure_new_fields` on a record it has already normalised changes nothing. */
  lemma NewFieldsIdempotent(rec: Dict)
    ensures NewFields(NewFields(rec)) == NewFields(rec)
  {
    var n := NewFields(rec);
    var f := DictOr(Get(rec, "fehler", Obj(map[])));
    NewFieldsFehler(rec);
    NewFieldsKeys(rec);
    NewFieldsLists(rec);
    NormalizeFehlerIdempotent(f);
    MirrorListIdempotent(Get(rec, "ctx_list", Null));
    MirrorListIdempotent(Get(rec, "add_fehler_list", Null));
    MirrorListIdempotent(Get(rec, "add_after_list", Null));
    ListsPresent(n);
    FehlerValueIdle(n, NormalizeFehler(f));
    NormalRecordIdle(n);
  }
}
