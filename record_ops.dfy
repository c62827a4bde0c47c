/**
 * Record-level operations of the index logic besides the normalisation:
 * the fresh record of `add_image_record`, the copy `clone_image_to_audit`
 * makes, the display name of a record, the video list of a record and the
 * upgrade of a legacy index to the current schema.
 */
module RecordOps {
  import opened Wrappers
  import opened Text
  import opened Json
  import opened MediaRefs
  import opened Records

  /**
   * A stored value passed where the source expects a `str` that it reads as
   * `(s or "")`: a falsy value stands for "", a string for itself; any other
   * value makes the string method called on it raise.
   */
  function StrArg(v: Json): Option<string>
  {
    if !Truthy(v) then Some("") else if v.Str? then Some(v.s) else None
  }

  // ------------------------------------------------------------ display name

  /**
   * `get_display_name_for_record`: the name of the record's main overlay,
   * from its `audit_id` (default "AUDIT") and `nr` (default "000"); `None`
   * where the sanitiser would raise on a non-string value.
   */
  function DisplayName(rec: Dict, projectId: string): Option<string>
  {
    match NameParts(rec)
    case None => None
    case Some((a, n)) => Some(OverlayFilename(projectId, a, n, OverlayFehlerbild, None))
  }

  /** The audit and number a record is named by. */
  function NameParts(rec: Dict): Option<(string, string)>
  {
    var a := StrArg(Get(rec, "audit_id", Str("AUDIT")));
    var n := StrArg(Get(rec, "nr", Str("000")));
    if a.None? || n.None? then None else Some((a.value, n.value))
  }

  /** An empty audit or number is named like the default audit "AUDIT" and number "000". */
  lemma MainOverlayDefaults(projectId: string, a: string, n: string)
    requires a == "" || a == "AUDIT"
    requires n == "" || n == "000"
    ensures OverlayFilename(projectId, a, n, OverlayFehlerbild, None)
      == OverlayFilename(projectId, "AUDIT", "000", OverlayFehlerbild, None)
  {
    assert (if a == "" then "AUDIT" else a) == "AUDIT";
    assert (if n == "" then "000" else n) == "000";
  }

  /** The display name is an overlay reference without a path separator. */
  lemma DisplayNameIsOverlayRef(rec: Dict, projectId: string)
    ensures var r := DisplayName(rec, projectId);
      r.Some? ==> IsOverlayRef(r.value) && NoSeparator(r.value)
  {
    var parts := NameParts(rec);
    if parts.Some? {
      OverlayFilenameIsOverlayRef(projectId, parts.value.0, parts.value.1, OverlayFehlerbild, None);
      OverlayFilenameNoSeparator(projectId, parts.value.0, parts.value.1, OverlayFehlerbild, None);
    }
  }

  /** There is no display name exactly when `audit_id` or `nr` is a truthy non-string. */
  lemma DisplayNameNone(rec: Dict, projectId: string)
    ensures DisplayName(rec, projectId).None? <==>
      (StrArg(Get(rec, "audit_id", Null)).None? || StrArg(Get(rec, "nr", Null)).None?)
  {
  }

  /** A record without (or with an empty) `audit_id` and `nr` is shown under the default parts. */
  lemma DisplayNameDefaults(rec: Dict, projectId: string)
    requires !Truthy(Get(rec, "audit_id", Null)) && !Truthy(Get(rec, "nr", Null))
    ensures DisplayName(rec, projectId) == Some(OverlayFilename(projectId, "AUDIT", "000", OverlayFehlerbild, None))
  {
    var parts := NameParts(rec);
    assert parts.Some?;
    MainOverlayDefaults(projectId, parts.value.0, parts.value.1);
  }

  // ------------------------------------------------------------ a fresh record

  /** The `fehler` dict of a fresh record. */
  function NewFehler(): Dict
  {
    map[
      "Fehlerort" := Str(""), "Fehlerart" := Arr([]), "BI_alt" := Str(""), "Fehlerbeschreibung" := Str(""),
      "Nacharbeit_done" := Bool(false), "BI_neu" := Str(""), "Nacharbeitsmassnahme" := Str(""),
      "Kommentar_Nacharbeit" := Str(""), "CaseStatus" := Str("Open"), "Prioritaet" := Str("Mittel"),
      "RQMRelevant" := Bool(false), "QZStatus" := Str("QZS")]
  }

  /** The record `add_image_record` appends: base and legacy raw both the new image, no overlays, empty lists. */
  function NewRecord(rawPath: string, number: string): Dict
  {
    map[
      "nr" := Str(number), "base_image" := Str(rawPath), "overlay" := Null,
      "raw" := Str(rawPath), "edited" := Null,
      "after_base" := Null, "after_overlay" := Null, "after_raw" := Null, "after_edited" := Null,
      "ctx_list" := Arr([]), "add_fehler_list" := Arr([]), "add_after_list" := Arr([]), "videos" := Arr([]),
      "fehler" := Obj(NewFehler())]
  }

  /**
   * A fresh record already carries every record-level field in normal form:
   * `ensure_new_fields` changes nothing in it but its `fehler` dict.
   */
  lemma NewRecordNormal(rawPath: string, number: string)
    ensures var rec := NewRecord(rawPath, number);
      NewFields(rec) == rec["fehler" := FehlerValue(rec)]
  {
    var rec := NewRecord(rawPath, number);
    NewRecordHasDefaults(rawPath, number);
    WithIdle(rec, FehlerValue(rec));
  }

  lemma NewRecordHasDefaults(rawPath: string, number: string)
    ensures var rec := NewRecord(rawPath, number);
      (forall i :: 0 <= i < |RecordSteps| ==> RecordSteps[i].key in rec)
      && MirrorList(Get(rec, "ctx_list", Null)) == Get(rec, "ctx_list", Null)
      && MirrorList(Get(rec, "add_fehler_list", Null)) == Get(rec, "add_fehler_list", Null)
      && MirrorList(Get(rec, "add_after_list", Null)) == Get(rec, "add_after_list", Null)
  {
    assert MapEach([], MirrorEntry) == [];
  }

  // ------------------------------------------------------------ the clone

  /** `entry["overlay"] = None; entry["edited"] = None` on a dict entry. */
  function ClearEntry(e: Json): Json
  {
    if e.Obj? then Obj(e.fields["overlay" := Null]["edited" := Null]) else e
  }

  /**
   * The loop `for entry in v or []` that clears each entry runs without
   * raising: the value is falsy, or a list of dicts.
   */
  predicate Clearable(v: Json)
  {
    !Truthy(v) || (v.Arr? && forall i :: 0 <= i < |v.items| ==> v.items[i].Obj?)
  }

  /** The list with every entry cleared. */
  function ClearList(v: Json): Json
  {
    if v.Arr? then Arr(MapEach(v.items, ClearEntry)) else v
  }

  function ClearListAt(d: Dict, key: string): Dict
  {
    if key in d then d[key := ClearList(d[key])] else d
  }

  /** The three entry lists with their overlays cleared. */
  function ClearLists(d: Dict): Dict
  {
    ClearListAt(ClearListAt(ClearListAt(d, "ctx_list"), "add_fehler_list"), "add_after_list")
  }

  /** The back-reference to the original record. */
  function LinkSource(src: Dict): Json
  {
    Obj(map["audit_id" := Get(src, "audit_id", Null), "nr" := Get(src, "nr", Null)])
  }

  /** The copy with its new number, audit and back-reference, and its four overlay fields cleared. */
  function CloneBase(src: Dict, nr: string, auditId: string): Dict
  {
    src["nr" := Str(nr)]["audit_id" := Str(auditId)]["link_source" := LinkSource(src)]
       ["overlay" := Null]["after_overlay" := Null]["edited" := Null]["after_edited" := Null]
  }

  /** Whether none of the three clearing loops raises. */
  predicate CanClone(src: Dict)
  {
    Clearable(Get(src, "ctx_list", Null)) && Clearable(Get(src, "add_fehler_list", Null))
    && Clearable(Get(src, "add_after_list", Null))
  }

  /**
   * The record `clone_image_to_audit` appends, numbered `nr`; `None` where
   * clearing a list entry raises (an entry or a list value that is not a
   * dict or a list of dicts).
   */
  function ClonedRecord(src: Dict, nr: string, auditId: string): Option<Dict>
  {
    if CanClone(src) then Some(NewFields(ClearLists(CloneBase(src, nr, auditId)))) else None
  }

  /** The clearing loops followed by `ensure_new_fields` on the copy. */
  method CloneRecord(src: Dict, nr: string, auditId: string) returns (r: Option<Dict>)
    ensures r == ClonedRecord(src, nr, auditId)
  {
    if !CanClone(src) {
      return None;
    }
    var c := CloneBase(src, nr, auditId);
    c := ClearListIn(c, "ctx_list");
    c := ClearListIn(c, "add_fehler_list");
    c := ClearListIn(c, "add_after_list");
    var n := EnsureNewFields(c);
    r := Some(n);
  }

  /** One clearing loop over the entries of a list. */
  method ClearListIn(d: Dict, key: string) returns (r: Dict)
    ensures r == ClearListAt(d, key)
  {
    r := d;
    if key in d && d[key].Arr? {
      var items := UpdateEach(d[key].items, ClearEntry);
      r := d[key := Arr(items)];
    }
  }

  /** Every dict entry of a list value has an empty overlay and an empty legacy `edited`. */
  predicate OverlaysCleared(v: Json)
  {
    v.Arr? ==> forall i :: 0 <= i < |v.items| && v.items[i].Obj? ==>
      Get(v.items[i].fields, "overlay", Null) == Null && Get(v.items[i].fields, "edited", Null) == Null
  }

  /** A cleared entry stays cleared once mirrored, and keeps its base image. */
  lemma MirrorClearedEntry(e: Json)
    requires e.Obj?
    ensures var m := MirrorEntry(ClearEntry(e));
      m.Obj? && Get(m.fields, "overlay", Null) == Null && Get(m.fields, "edited", Null) == Null
      && Get(m.fields, "base", Null) == Get(e.fields, "base", Get(e.fields, "raw", Null))
  {
  }

  /** A cleared list stays cleared once normalised. */
  lemma MirrorClearedList(v: Json)
    ensures OverlaysCleared(MirrorList(ClearList(v)))
  {
    var c := ClearList(v);
    if Truthy(c) && c.Arr? {
      forall i | 0 <= i < |c.items|
        ensures var m := MirrorEntry(c.items[i]);
          m.Obj? ==> Get(m.fields, "overlay", Null) == Null && Get(m.fields, "edited", Null) == Null
      {
        if v.items[i].Obj? {
          MirrorClearedEntry(v.items[i]);
        }
      }
    }
  }

  // ------------------------------------------------------------ clone facts

  /** The keys the copy sets itself. */
  predicate CloneSets(k: string)
  {
    k == "nr" || k == "audit_id" || k == "link_source"
    || k == "overlay" || k == "after_overlay" || k == "edited" || k == "after_edited"
  }

  /** One of the three entry lists. */
  predicate EntryListKey(k: string)
  {
    k == "ctx_list" || k == "add_fehler_list" || k == "add_after_list"
  }

  lemma ClearListsKeep(d: Dict, k: string)
    requires !EntryListKey(k)
    ensures (k in ClearLists(d) <==> k in d) && (k in d ==> ClearLists(d)[k] == d[k])
  {
  }

  lemma ClearListsGet(d: Dict)
    ensures Get(ClearLists(d), "ctx_list", Null) == ClearList(Get(d, "ctx_list", Null))
    ensures Get(ClearLists(d), "add_fehler_list", Null) == ClearList(Get(d, "add_fehler_list", Null))
    ensures Get(ClearLists(d), "add_after_list", Null) == ClearList(Get(d, "add_after_list", Null))
  {
  }

  lemma CloneBaseKeep(src: Dict, nr: string, auditId: string, k: string)
    requires !CloneSets(k)
    ensures (k in CloneBase(src, nr, auditId) <==> k in src)
    ensures k in src ==> CloneBase(src, nr, auditId)[k] == src[k]
  {
  }

  /** The copied fields before `ensure_new_fields`: the set keys, and everything else as in the source. */
  lemma ClearedCloneFacts(src: Dict, nr: string, auditId: string, k: string)
    requires !CloneSets(k) && !EntryListKey(k)
    ensures var c := ClearLists(CloneBase(src, nr, auditId));
      c["nr"] == Str(nr) && c["audit_id"] == Str(auditId) && c["link_source"] == LinkSource(src)
      && c["overlay"] == Null && c["after_overlay"] == Null && c["edited"] == Null && c["after_edited"] == Null
      && (k in c <==> k in src) && (k in src ==> c[k] == src[k])
  {
    var b := CloneBase(src, nr, auditId);
    CloneBaseKeep(src, nr, auditId, k);
    ClearListsKeep(b, k);
    ClearListsKeep(b, "nr");
    ClearListsKeep(b, "audit_id");
    ClearListsKeep(b, "link_source");
    ClearListsKeep(b, "overlay");
    ClearListsKeep(b, "after_overlay");
    ClearListsKeep(b, "edited");
    ClearListsKeep(b, "after_edited");
  }

  /** The clone carries its new number and audit and points back at its source. */
  lemma ClonedIdentity(src: Dict, nr: string, auditId: string)
    requires CanClone(src)
    ensures var n := ClonedRecord(src, nr, auditId).value;
      Get(n, "nr", Null) == Str(nr) && Get(n, "audit_id", Null) == Str(auditId)
      && Get(n, "link_source", Null) == LinkSource(src)
  {
    var c := ClearLists(CloneBase(src, nr, auditId));
    ClearedCloneFacts(src, nr, auditId, "fehler");
    IdentityKept(c, nr, auditId, LinkSource(src));
  }

  lemma IdentityKept(c: Dict, nr: string, auditId: string, link: Json)
    requires "nr" in c && c["nr"] == Str(nr) && "audit_id" in c && c["audit_id"] == Str(auditId)
    requires "link_source" in c && c["link_source"] == link
    ensures var n := NewFields(c);
      Get(n, "nr", Null) == Str(nr) && Get(n, "audit_id", Null) == Str(auditId) && Get(n, "link_source", Null) == link
  {
    NewFieldsKeep(c, "nr");
    NewFieldsKeep(c, "audit_id");
    NewFieldsKeep(c, "link_source");
  }

  /**
   * The clone owns no overlay of its source: its own overlay fields are
   * empty and so is every overlay in its entry lists.
   */
  lemma ClonedOverlaysCleared(src: Dict, nr: string, auditId: string)
    requires CanClone(src)
    ensures var n := ClonedRecord(src, nr, auditId).value;
      Get(n, "overlay", Null) == Null && Get(n, "after_overlay", Null) == Null
      && Get(n, "edited", Null) == Null && Get(n, "after_edited", Null) == Null
  {
    var c := ClearLists(CloneBase(src, nr, auditId));
    ClearedCloneFacts(src, nr, auditId, "fehler");
    OverlaysStayEmpty(c);
  }

  lemma OverlaysStayEmpty(c: Dict)
    requires "overlay" in c && c["overlay"] == Null && "after_overlay" in c && c["after_overlay"] == Null
    requires "edited" in c && c["edited"] == Null && "after_edited" in c && c["after_edited"] == Null
    ensures var n := NewFields(c);
      Get(n, "overlay", Null) == Null && Get(n, "after_overlay", Null) == Null
      && Get(n, "edited", Null) == Null && Get(n, "after_edited", Null) == Null
  {
    NewFieldsLayers(c);
    NewFieldsKeep(c, "after_overlay");
    NewFieldsKeep(c, "edited");
    NewFieldsKeep(c, "after_edited");
  }

  /** Every entry list of the clone has its overlays cleared, and has one entry per source entry. */
  lemma ClonedListsCleared(src: Dict, nr: string, auditId: string)
    requires CanClone(src)
    ensures var n := ClonedRecord(src, nr, auditId).value;
      OverlaysCleared(n["ctx_list"]) && OverlaysCleared(n["add_fehler_list"]) && OverlaysCleared(n["add_after_list"])
  {
    var c := ClearLists(CloneBase(src, nr, auditId));
    NewFieldsLists(c);
    ClearListsGet(CloneBase(src, nr, auditId));
    ClearedListGet(src, nr, auditId);
    MirrorClearedList(Get(src, "ctx_list", Null));
    MirrorClearedList(Get(src, "add_fehler_list", Null));
    MirrorClearedList(Get(src, "add_after_list", Null));
  }

  lemma ClearedListGet(src: Dict, nr: string, auditId: string)
    ensures var b := CloneBase(src, nr, auditId);
      Get(b, "ctx_list", Null) == Get(src, "ctx_list", Null)
      && Get(b, "add_fehler_list", Null) == Get(src, "add_fehler_list", Null)
      && Get(b, "add_after_list", Null) == Get(src, "add_after_list", Null)
  {
    CloneBaseKeep(src, nr, auditId, "ctx_list");
    CloneBaseKeep(src, nr, auditId, "add_fehler_list");
    CloneBaseKeep(src, nr, auditId, "add_after_list");
  }

  /**
   * The clone shares the source's base image (the file is not copied), its
   * normalised `fehler` dict, and every other stored field.
   */
  lemma ClonedShares(src: Dict, nr: string, auditId: string, k: string)
    requires CanClone(src)
    requires k in src && k != "fehler" && !CloneSets(k) && !EntryListKey(k)
    ensures var n := ClonedRecord(src, nr, auditId).value;
      k in n && n[k] == src[k]
  {
    var c := ClearLists(CloneBase(src, nr, auditId));
    ClearedCloneFacts(src, nr, auditId, k);
    NewFieldsKeep(c, k);
  }

  /** The clone's base image is the source's, and its `fehler` dict the source's, normalised. */
  lemma ClonedBaseAndFehler(src: Dict, nr: string, auditId: string)
    requires CanClone(src)
    ensures var n := ClonedRecord(src, nr, auditId).value;
      Get(n, "base_image", Null) == Get(src, "base_image", Get(src, "raw", Null))
      && "fehler" in n && n["fehler"] == FehlerValue(src)
  {
    var c := ClearLists(CloneBase(src, nr, auditId));
    ClearedCloneKeeps(src, nr, auditId, "base_image");
    ClearedCloneKeeps(src, nr, auditId, "raw");
    ClearedCloneKeeps(src, nr, auditId, "fehler");
    BaseAndFehlerKept(c, src);
  }

  /** A field the copy neither sets nor clears is the source's. */
  lemma ClearedCloneKeeps(src: Dict, nr: string, auditId: string, k: string)
    requires !CloneSets(k) && !EntryListKey(k)
    ensures var c := ClearLists(CloneBase(src, nr, auditId));
      (k in c <==> k in src) && (k in src ==> c[k] == src[k])
  {
    CloneBaseKeep(src, nr, auditId, k);
    ClearListsKeep(CloneBase(src, nr, auditId), k);
  }

  lemma BaseAndFehlerKept(c: Dict, src: Dict)
    requires ("base_image" in c <==> "base_image" in src) && ("base_image" in src ==> c["base_image"] == src["base_image"])
    requires ("raw" in c <==> "raw" in src) && ("raw" in src ==> c["raw"] == src["raw"])
    requires ("fehler" in c <==> "fehler" in src) && ("fehler" in src ==> c["fehler"] == src["fehler"])
    ensures var n := NewFields(c);
      Get(n, "base_image", Null) == Get(src, "base_image", Get(src, "raw", Null))
      && "fehler" in n && n["fehler"] == FehlerValue(src)
  {
    NewFieldsLayers(c);
    NewFieldsFehler(c);
    SameFehlerValue(c, src);
  }

  lemma SameFehlerValue(c: Dict, src: Dict)
    requires ("fehler" in c <==> "fehler" in src) && ("fehler" in src ==> c["fehler"] == src["fehler"])
    ensures FehlerValue(c) == FehlerValue(src)
  {
    assert Get(c, "fehler", Obj(map[])) == Get(src, "fehler", Obj(map[]));
  }
  // ------------------------------------------------------------ videos of a record

  /**
   * The list append of `save_video_file` and `link_existing_video_to_record`
   * on the matched record: `videos` is created empty when missing and the
   * reference is appended unless already present. `None` where the source
   * raises: a `videos` value that is neither a list nor a string or dict
   * already containing the reference (`in` is a substring test on a string
   * and a key test on a dict, and neither can be appended to).
   */
  function LinkVideo(rec: Dict, storeRef: string): Option<Dict>
  {
    match Get(rec, "videos", Arr([]))
    case Arr(items) =>
      if Str(storeRef) in items then Some(rec["videos" := Arr(items)])
      else Some(rec["videos" := Arr(items + [Str(storeRef)])])
    case Str(s) => if Contains(s, storeRef) then Some(rec) else None
    case Obj(m) => if storeRef in m then Some(rec) else None
    case _ => None
  }

  /**
   * Linking keeps every other field, keeps the old videos in order in front,
   * holds the reference once linked, adds at most one entry, and fails only
   * on a `videos` value the source cannot extend.
   */
  lemma LinkVideoFacts(rec: Dict, storeRef: string)
    ensures var r := LinkVideo(rec, storeRef);
      (r.Some? <==> Get(rec, "videos", Arr([])).Arr?
                    || (Get(rec, "videos", Arr([])).Str? && Contains(Get(rec, "videos", Arr([])).s, storeRef))
                    || (Get(rec, "videos", Arr([])).Obj? && storeRef in Get(rec, "videos", Arr([])).fields))
      && (r.Some? ==> forall k :: k != "videos" ==> (k in r.value <==> k in rec) && (k in rec ==> r.value[k] == rec[k]))
      && (r.Some? && Get(rec, "videos", Arr([])).Arr? ==>
            var before := Get(rec, "videos", Arr([])).items;
            r.value["videos"].Arr? && Str(storeRef) in r.value["videos"].items
            && before <= r.value["videos"].items && |r.value["videos"].items| <= |before| + 1)
  {
  }

  /** Linking the same video twice links it once. */
  lemma LinkVideoIdempotent(rec: Dict, storeRef: string)
    requires LinkVideo(rec, storeRef).Some?
    ensures LinkVideo(LinkVideo(rec, storeRef).value, storeRef) == LinkVideo(rec, storeRef)
  {
    var r := LinkVideo(rec, storeRef).value;
    if Get(rec, "videos", Arr([])).Arr? {
      var items := r["videos"].items;
      assert Str(storeRef) in items;
      UpdateSame(r, "videos");
    }
  }

  // ------------------------------------------------------------ schema

  /** The project block of a new index. */
  function ProjectInfo(projectId: string, vehicle: Json, notes: string, today: string): Json
  {
    Obj(map["project_id" := Str(projectId), "vehicle" := vehicle, "created_at" := Str(today), "notes" := Str(notes)])
  }

  /** `new_project_v2`: an empty index at schema version 3, with today as its creation date. */
  function NewProjectV2(projectId: string, vehicle: Json, notes: string, today: string): Dict
  {
    map["schema_version" := Int(3), "project" := ProjectInfo(projectId, vehicle, notes, today),
        "audits" := Arr([]), "images" := Arr([]), "counters" := Obj(map["images" := Int(0)])]
  }

  /** An index the upgrade leaves alone: schema 2 or 3 with a project block. */
  predicate IsCurrentSchema(data: Dict)
  {
    (Get(data, "schema_version", Null) == Int(2) || Get(data, "schema_version", Null) == Int(3)) && "project" in data
  }

  /** A new index is current. */
  lemma NewProjectIsCurrent(projectId: string, vehicle: Json, notes: string, today: string)
    ensures var p := NewProjectV2(projectId, vehicle, notes, today);
      IsCurrentSchema(p) && Get(p, "images", Null) == Arr([]) && Get(p, "counters", Null) == Obj(map["images" := Int(0)])
  {
  }

  /** The id of the single audit a legacy index is imported into. */
  function LegacyAuditId(datum: string, auditor: Json): string
  {
    SanitizedName(datum + "__Legacy__" + PyStr(Or(auditor, Str("NA"))))
  }

  /** The legacy audit id is a clean file-name part. */
  lemma LegacyAuditIdClean(datum: string, auditor: Json)
    ensures CleanName(LegacyAuditId(datum, auditor))
  {
    SanitizedNameIsClean(datum + "__Legacy__" + PyStr(Or(auditor, Str("NA"))));
  }

  /** The audit entry of a legacy import. */
  function LegacyAudit(auditId: string, datum: string, auditor: Json): Json
  {
    Obj(map["audit_id" := Str(auditId), "type" := Str("Legacy Import"), "scope" := Str("Internes Audit"),
            "date" := Str(datum), "auditor" := auditor, "notes" := Str("")])
  }

  /**
   * One step of the import loop on a record: normalise it with `norm`, then
   * move it into the legacy audit. The upgrade passes `NewFields`.
   */
  function ImportEntry(auditId: string, norm: Dict -> Dict): Json -> Json
  {
    (e: Json) => if e.Obj? then Obj(norm(e.fields)["audit_id" := Str(auditId)]) else e
  }

  /**
   * The `images` value after the import loop: a list of dicts has each
   * record imported; an empty string or dict is iterated over without a
   * step and kept; anything else makes the loop raise.
   */
  function ImportImages(v: Json, auditId: string, norm: Dict -> Dict): Option<Json>
  {
    if v.Arr? then
      if forall i :: 0 <= i < |v.items| ==> v.items[i].Obj? then Some(Arr(MapEach(v.items, ImportEntry(auditId, norm))))
      else None
    else if v == Str("") || v == Obj(map[]) then Some(v)
    else None
  }

  /** `len(v)` of the images value. */
  function PyLen(v: Json): int
  {
    match v
    case Arr(items) => |items|
    case Str(s) => |s|
    case Obj(m) => |m|
    case _ => 0
  }

  /** The date of a legacy index: its `Datum` as text, or today where that is empty. */
  function LegacyDate(basis: Dict, today: string): string
  {
    var d := PyStr(Get(basis, "Datum", Str("")));
    if d == "" then today else d
  }

  /** `data.get("basis", {})` of a legacy index. */
  function LegacyBasis(data: Dict): Json { Get(data, "basis", Obj(map[])) }

  /** `basis.get("Fahrzeug", "Unbekannt")`. */
  function LegacyVehicle(b: Dict): Json { Get(b, "Fahrzeug", Str("Unbekannt")) }

  /** `basis.get("Auditor", "")`. */
  function LegacyAuditor(b: Dict): Json { Get(b, "Auditor", Str("")) }

  /** `data.get("images", [])` of a legacy index. */
  function LegacyImages(data: Dict): Json { Get(data, "images", Arr([])) }

  /** The index `ensure_v2_schema` returns for `data`, as a value. */
  function UpgradeSchema(data: Dict, today: string): Option<Dict>
  {
    if IsCurrentSchema(data) then Some(data)
    else
      var basis := LegacyBasis(data);
      if !basis.Obj? then None
      else
        var veh := StrArg(LegacyVehicle(basis.fields));
        if veh.None? then None
        else ImportLegacy(data, basis.fields, veh.value, today)
  }

  /** The legacy index rebuilt as schema 3 from its `basis` fields `b`, once the vehicle name is known. */
  function ImportLegacy(data: Dict, b: Dict, veh: string, today: string): Option<Dict>
  {
    var auditor := LegacyAuditor(b);
    var datum := LegacyDate(b, today);
    var auditId := LegacyAuditId(datum, auditor);
    var imgs := ImportImages(LegacyImages(data), auditId, NewFields);
    if imgs.None? then None
    else Some(LegacyIndex(LegacyVehicle(b), veh, datum, auditor, auditId, imgs.value, today))
  }

  /** The new index a legacy one becomes, around its upgraded `images` value. */
  function LegacyIndex(vehicle: Json, veh: string, datum: string, auditor: Json, auditId: string, imgs: Json, today: string): Dict
  {
    NewProjectV2("veh__" + Sanitize(veh), vehicle, "", today)
      ["audits" := Arr([LegacyAudit(auditId, datum, auditor)])]
      ["images" := imgs]
      ["counters" := Obj(map["images" := Int(PyLen(imgs))])]
  }

  lemma LegacyIndexFacts(vehicle: Json, veh: string, datum: string, auditor: Json, auditId: string, imgs: Json, today: string)
    ensures var r := LegacyIndex(vehicle, veh, datum, auditor, auditId, imgs, today);
      IsCurrentSchema(r) && r["schema_version"] == Int(3)
      && r["audits"] == Arr([LegacyAudit(auditId, datum, auditor)])
      && r["images"] == imgs && r["counters"] == Obj(map["images" := Int(PyLen(imgs))])
  {
  }

  /**
   * The import keeps one record per legacy record, in order, each the
   * normalised record moved into the legacy audit; it fails exactly on an
   * `images` value the loop cannot walk.
   */
  lemma ImportImagesFacts(v: Json, auditId: string, norm: Dict -> Dict)
    ensures var r := ImportImages(v, auditId, norm);
      (r.None? <==> !(v.Arr? && forall i :: 0 <= i < |v.items| ==> v.items[i].Obj?) && v != Str("") && v != Obj(map[]))
      && (r.Some? && !v.Arr? ==> r.value == v)
      && (r.Some? && v.Arr? ==>
            r.value.Arr? && |r.value.items| == |v.items|
            && forall i :: 0 <= i < |r.value.items| ==>
                 r.value.items[i] == Obj(norm(v.items[i].fields)["audit_id" := Str(auditId)])
                 && r.value.items[i].fields["audit_id"] == Str(auditId))
  {
    var r := ImportImages(v, auditId, norm);
    if r.Some? && v.Arr? {
      forall i | 0 <= i < |r.value.items|
        ensures r.value.items[i] == Obj(norm(v.items[i].fields)["audit_id" := Str(auditId)])
      {
        assert r.value.items[i] == ImportEntry(auditId, norm)(v.items[i]);
      }
    }
  }

  /** The import loop over the legacy records. */
  method ImportLoop(v: Json, auditId: string, norm: Dict -> Dict) returns (r: Option<Json>)
    ensures r == ImportImages(v, auditId, norm)
  {
    if !v.Arr? {
      if v == Str("") || v == Obj(map[]) {
        return Some(v);
      }
      return None;
    }
    var out: seq<Json> := [];
    var i := 0;
    while i < |v.items|
      invariant 0 <= i <= |v.items|
      invariant |out| == i && forall k :: 0 <= k < i ==> v.items[k].Obj? && out[k] == ImportEntry(auditId, norm)(v.items[k])
    {
      var e := v.items[i];
      if !e.Obj? {
        return None;
      }
      var n := norm(e.fields);
      n := n["audit_id" := Str(auditId)];
      assert Obj(n) == ImportEntry(auditId, norm)(e);
      out := out + [Obj(n)];
      i := i + 1;
    }
    assert out == MapEach(v.items, ImportEntry(auditId, norm));
    r := Some(Arr(out));
  }

  /**
   * `ensure_v2_schema`: a current index is returned as it is; a legacy one
   * becomes a new index for the vehicle in its `basis`, with one audit
   * holding every legacy record. `None` where the source raises: a `basis`
   * that is not a dict, a vehicle that is not text, or an `images` value the
   * loop cannot walk. The legacy records are imported by a loop.
   */
  method EnsureV2Schema(data: Dict, today: string) returns (r: Option<Dict>)
    ensures r == UpgradeSchema(data, today)
  {
    if IsCurrentSchema(data) {
      return Some(data);
    }
    var basis := LegacyBasis(data);
    if !basis.Obj? {
      return None;
    }
    var veh := StrArg(LegacyVehicle(basis.fields));
    if veh.None? {
      return None;
    }
    r := BuildLegacyIndex(data, basis.fields, veh.value, today);
  }

  /** The schema-3 index built from a legacy one, records imported by the loop. */
  method BuildLegacyIndex(data: Dict, b: Dict, veh: string, today: string) returns (r: Option<Dict>)
    ensures r == ImportLegacy(data, b, veh, today)
  {
    var vehicle := LegacyVehicle(b);
    var auditor := LegacyAuditor(b);
    var datum := LegacyDate(b, today);
    var auditId := LegacyAuditId(datum, auditor);
    var imgs := ImportLoop(LegacyImages(data), auditId, NewFields);
    if imgs.None? {
      return None;
    }
    var v2 := NewProjectV2("veh__" + Sanitize(veh), vehicle, "", today);
    v2 := v2["audits" := Arr([LegacyAudit(auditId, datum, auditor)])];
    v2 := v2["images" := imgs.value];
    v2 := v2["counters" := Obj(map["images" := Int(PyLen(imgs.value))])];
    assert v2 == LegacyIndex(vehicle, veh, datum, auditor, auditId, imgs.value, today);
    r := Some(v2);
  }

  /** The upgraded index is current, so upgrading it again changes nothing. */
  lemma UpgradeIdempotent(data: Dict, today: string, later: string)
    requires UpgradeSchema(data, today).Some?
    ensures IsCurrentSchema(UpgradeSchema(data, today).value)
    ensures UpgradeSchema(UpgradeSchema(data, today).value, later) == UpgradeSchema(data, today)
  {
    if !IsCurrentSchema(data) {
      var b := LegacyBasis(data).fields;
      var vehicle := LegacyVehicle(b);
      var auditor := LegacyAuditor(b);
      var datum := LegacyDate(b, today);
      var auditId := LegacyAuditId(datum, auditor);
      var imgs := ImportImages(LegacyImages(data), auditId, NewFields);
      LegacyIndexFacts(vehicle, StrArg(vehicle).value, datum, auditor, auditId, imgs.value, today);
    }
  }

  /**
   * A legacy index becomes schema 3 with one audit, and every legacy record
   * lands in that audit; the image counter is the number of records.
   */
  lemma UpgradeLegacyFacts(data: Dict, today: string)
    requires !IsCurrentSchema(data) && UpgradeSchema(data, today).Some?
    ensures var r := UpgradeSchema(data, today).value;
      var b := LegacyBasis(data).fields;
      var auditId := LegacyAuditId(LegacyDate(b, today), LegacyAuditor(b));
      "schema_version" in r && r["schema_version"] == Int(3)
      && "audits" in r && r["audits"] == Arr([LegacyAudit(auditId, LegacyDate(b, today), LegacyAuditor(b))])
      && "images" in r && "counters" in r && r["counters"] == Obj(map["images" := Int(PyLen(r["images"]))])
      && (r["images"].Arr? ==>
            |r["images"].items| == |ListOr(LegacyImages(data))|
            && forall i :: 0 <= i < |r["images"].items| ==>
                 r["images"].items[i].Obj? && "audit_id" in r["images"].items[i].fields
                 && r["images"].items[i].fields["audit_id"] == Str(auditId))
  {
    var b := LegacyBasis(data).fields;
    var vehicle := LegacyVehicle(b);
    var auditor := LegacyAuditor(b);
    var datum := LegacyDate(b, today);
    var auditId := LegacyAuditId(datum, auditor);
    var imgs := ImportImages(LegacyImages(data), auditId, NewFields);
    LegacyIndexFacts(vehicle, StrArg(vehicle).value, datum, auditor, auditId, imgs.value, today);
    ImportImagesFacts(LegacyImages(data), auditId, NewFields);
  }
}
