/**
 * The media operations on one record: saving an overlay for the record or
 * for one entry of its image lists, attaching context and additional
 * images through the media store, and detaching list entries. The record
 * dict the source updates in place is passed in and the updated record
 * returned; `None` stands for the exception the source raises, after
 * whatever it already did to the store.
 */
module RecordMedia {
  import opened Wrappers
  import opened Text
  import opened Json
  import opened MediaRefs
  import opened MediaStore
  import opened Records
  import opened RecordOps

  /** The reference a record stores for an overlay file: "overlays/<name>". */
  function OverlayRefFor(fn: string): string
  {
    "overlays/" + fn
  }

  /** A stored overlay reference is an overlay reference, so deleting helpers treat it as one. */
  lemma OverlayRefForIsOverlayRef(fn: string)
    ensures IsOverlayRef(OverlayRefFor(fn))
  {
    assert OverlayRefFor(fn)[..9] == "overlays" + "/";
  }

  // ------------------------------------------------------------ main overlays

  /** The record fields `save_overlay_for_record` sets for an overlay of the given type. */
  function WithOverlay(rec: Dict, ref: string, overlayType: string): Dict
  {
    if overlayType == OverlayFehlerbild then rec["overlay" := Str(ref)]["edited" := Str(ref)]
    else if overlayType == OverlayNacharbeit then rec["after_overlay" := Str(ref)]["after_edited" := Str(ref)]
    else rec
  }

  /**
   * The main overlay of a record is both its layer and its legacy alias;
   * the Nacharbeit overlay likewise; any other type leaves the record as it
   * was; no other field changes.
   */
  lemma WithOverlayFacts(rec: Dict, ref: string, overlayType: string)
    ensures var r := WithOverlay(rec, ref, overlayType);
      (overlayType == OverlayFehlerbild ==> r["overlay"] == Str(ref) && r["edited"] == Str(ref))
      && (overlayType == OverlayNacharbeit ==> r["after_overlay"] == Str(ref) && r["after_edited"] == Str(ref))
      && (overlayType != OverlayFehlerbild && overlayType != OverlayNacharbeit ==> r == rec)
      && (forall k :: k != "overlay" && k != "edited" && k != "after_overlay" && k != "after_edited" ==>
            (k in r <==> k in rec) && (k in rec ==> r[k] == rec[k]))
  {
  }

  /** `OverlayFilename` starts with the overlay prefix. */
  lemma OverlayNamePrefix(projectId: string, auditId: string, nr: string, overlayType: string, index: Option<int>)
    ensures StartsWith(OverlayFilename(projectId, auditId, nr, overlayType, index), OverlayPrefix)
  {
    var fn := OverlayFilename(projectId, auditId, nr, overlayType, index);
    OverlayFilenameIsOverlayRef(projectId, auditId, nr, overlayType, index);
    assert fn[..8] == fn[..12][..8];
  }

  /**
   * `save_canvas_overlay` as the record operations use it: the overlay is
   * written under its deterministic name, and the returned reference
   * "overlays/<name>" resolves to the written file; `raised` where the file
   * system refuses the write, which then writes nothing.
   */
  method WriteOverlay(store: Store, overlay: Picture, projectId: string, auditId: string, nr: string,
                      overlayType: string, index: Option<int>) returns (raised: bool, ref: string)
    requires store.Valid()
    modifies store
    ensures store.Valid() && store.regExists == old(store.regExists)
    ensures store.images == old(store.images) && store.videos == old(store.videos)
    ensures var fn := OverlayFilename(projectId, auditId, nr, overlayType, index);
      ref == OverlayRefFor(fn)
      && (raised <==> store.OverlayPath(fn) in store.failing)
      && (raised ==> store.files == old(store.files))
      && (!raised ==> store.files == old(store.files)[store.OverlayPath(fn) := store.codec.storePng(overlay)]
                      && store.Resolve(ref, None) == Some(store.OverlayPath(fn)))
  {
    var fn, absPath;
    raised, fn, absPath := store.SaveCanvasOverlay(overlay, projectId, auditId, nr, overlayType, index);
    ref := OverlayRefFor(fn);
    if !raised {
      OverlayNamePrefix(projectId, auditId, nr, overlayType, index);
      store.ResolveOverlayRef(fn);
    }
  }

  /**
   * `save_overlay_for_record`: writes the overlay under the record's
   * deterministic name (overwriting any earlier one, deleting nothing) and
   * stores "overlays/<name>" in the fields of the overlay type. `ref` is the
   * returned reference. The record's `audit_id` and `nr` must be text
   * (the name generator raises otherwise, before writing); a write the file
   * system refuses raises too, with the record and the files unchanged.
   */
  method SaveOverlayForRecord(store: Store, rec: Dict, overlay: Picture, projectId: string, overlayType: string)
    returns (r: Option<Dict>, ref: string)
    requires store.Valid()
    modifies store
    ensures store.Valid() && store.regExists == old(store.regExists)
    ensures store.images == old(store.images) && store.videos == old(store.videos)
    ensures r.None? ==> store.files == old(store.files)
    ensures NameParts(rec).None? ==> r.None?
    ensures NameParts(rec).Some? ==>
      var fn := OverlayFilename(projectId, NameParts(rec).value.0, NameParts(rec).value.1, overlayType, None);
      ref == OverlayRefFor(fn)
      && (r.None? <==> store.OverlayPath(fn) in store.failing)
      && (r.Some? ==>
            r.value == WithOverlay(rec, ref, overlayType)
            && store.files == old(store.files)[store.OverlayPath(fn) := store.codec.storePng(overlay)]
            && store.Resolve(ref, None) == Some(store.OverlayPath(fn)))
  {
    var parts := NameParts(rec);
    if parts.None? {
      return None, "";
    }
    var raised;
    raised, ref := WriteOverlay(store, overlay, projectId, parts.value.0, parts.value.1, overlayType, None);
    if raised {
      return None, ref;
    }
    r := Some(WithOverlay(rec, ref, overlayType));
  }

  // ------------------------------------------------------------ list entry overlays

  /** `len(v)`, or `None` where `len` raises. */
  function EntryCount(v: Json): Option<int>
  {
    match v
    case Arr(items) => Some(|items|)
    case Str(s) => Some(|s|)
    case Obj(m) => Some(|m|)
    case _ => None
  }

  /** An entry with its overlay and legacy `edited` set to `ref`. */
  function EntryWithOverlay(e: Json, ref: string): Json
  {
    if e.Obj? then Obj(e.fields["overlay" := Str(ref)]["edited" := Str(ref)]) else e
  }

  /** The record once entry `idx` of its list `key` holds the overlay `ref`. */
  function EntrySaved(rec: Dict, key: string, idx: int, ref: string): Dict
  {
    var v := Get(rec, key, Arr([]));
    if v.Arr? && 0 <= idx < |v.items| then rec[key := Arr(v.items[idx := EntryWithOverlay(v.items[idx], ref)])]
    else rec
  }

  /**
   * What saving an entry overlay does: nothing, raise before writing, or
   * write the file (and then raise unless the entry is a dict). The write
   * itself raises where the file system refuses it.
   */
  datatype EntrySave = OutOfRange | Raises | Writes(fn: string, entryOk: bool)

  function PlanEntrySave(rec: Dict, key: string, idx: int, projectId: string, overlayType: string): EntrySave
  {
    var v := Get(rec, key, Arr([]));
    match EntryCount(v)
    case None => Raises
    case Some(n) =>
      if idx < 0 || idx >= n then OutOfRange
      else if v.Obj? then Raises
      else match NameParts(rec)
        case None => Raises
        case Some(parts) =>
          Writes(OverlayFilename(projectId, parts.0, parts.1, overlayType, Some(idx + 1)), v.Arr? && v.items[idx].Obj?)
  }

  /**
   * The outcome of saving an entry overlay by `plan`, the files having been
   * `before`: the record unchanged and nothing written when out of range;
   * a raise and nothing written when the plan raises or the write is
   * refused; otherwise the overlay file written, its reference resolving to
   * it, and the entry updated when it is a dict (a raise otherwise).
   */
  ghost predicate EntrySaveDone(store: Store, before: map<string, Bytes>, plan: EntrySave, overlay: Picture,
                                rec: Dict, key: string, idx: int, r: Option<Dict>)
    reads store
  {
    (plan == OutOfRange ==> r == Some(rec) && store.files == before)
    && (plan == Raises ==> r.None? && store.files == before)
    && (plan.Writes? && store.OverlayPath(plan.fn) in store.failing ==> r.None? && store.files == before)
    && (plan.Writes? && store.OverlayPath(plan.fn) !in store.failing ==>
          store.files == before[store.OverlayPath(plan.fn) := store.codec.storePng(overlay)]
          && store.Resolve(OverlayRefFor(plan.fn), None) == Some(store.OverlayPath(plan.fn))
          && (plan.entryOk ==> r == Some(EntrySaved(rec, key, idx, OverlayRefFor(plan.fn))))
          && (!plan.entryOk ==> r.None?))
  }

  /**
   * The body shared by `save_ctx_annotated_index` and
   * `save_additional_annotated_index` once the list and overlay type are
   * chosen: the overlay is named with the 1-based entry index.
   */
  method SaveEntryOverlay(store: Store, rec: Dict, key: string, idx: int, overlay: Picture, projectId: string,
                          overlayType: string) returns (r: Option<Dict>)
    requires store.Valid()
    modifies store
    ensures store.Valid() && store.regExists == old(store.regExists)
    ensures store.images == old(store.images) && store.videos == old(store.videos)
    ensures EntrySaveDone(store, old(store.files), PlanEntrySave(rec, key, idx, projectId, overlayType), overlay,
                          rec, key, idx, r)
  {
    var v := Get(rec, key, Arr([]));
    var count := EntryCount(v);
    if count.None? {
      return None;
    }
    if idx < 0 || idx >= count.value {
      return Some(rec);
    }
    if v.Obj? {
      return None;
    }
    var parts := NameParts(rec);
    if parts.None? {
      return None;
    }
    var entryOk := v.Arr? && v.items[idx].Obj?;
    var raised, ref := WriteOverlay(store, overlay, projectId, parts.value.0, parts.value.1, overlayType, Some(idx + 1));
    if raised || !entryOk {
      return None;
    }
    r := Some(EntrySaved(rec, key, idx, ref));
  }

  /** Saving an entry overlay changes that entry alone, and only its overlay and legacy `edited`. */
  lemma EntrySavedFacts(rec: Dict, key: string, idx: int, ref: string)
    requires key in rec && rec[key].Arr? && 0 <= idx < |rec[key].items| && rec[key].items[idx].Obj?
    ensures var r := EntrySaved(rec, key, idx, ref);
      var before := rec[key].items;
      key in r && r[key].Arr? && |r[key].items| == |before|
      && r[key].items[idx].Obj?
      && r[key].items[idx].fields == before[idx].fields["overlay" := Str(ref)]["edited" := Str(ref)]
      && (forall j :: 0 <= j < |before| && j != idx ==> r[key].items[j] == before[j])
      && (forall k :: k != key ==> (k in r <==> k in rec) && (k in rec ==> r[k] == rec[k]))
  {
  }

  /** `save_ctx_annotated_index`: a context entry's overlay, of type KONTEXT. */
  method SaveCtxAnnotated(store: Store, rec: Dict, ctxIndex: int, overlay: Picture, projectId: string)
    returns (r: Option<Dict>)
    requires store.Valid()
    modifies store
    ensures store.Valid() && store.regExists == old(store.regExists)
    ensures store.images == old(store.images) && store.videos == old(store.videos)
    ensures EntrySaveDone(store, old(store.files), PlanEntrySave(rec, "ctx_list", ctxIndex, projectId, OverlayKontext),
                          overlay, rec, "ctx_list", ctxIndex, r)
  {
    r := SaveEntryOverlay(store, rec, "ctx_list", ctxIndex, overlay, projectId, OverlayKontext);
  }

  /** `phase.upper() == "FEHLER"`: the phase that selects the Fehler list when saving or attaching. */
  predicate IsFehlerPhase(phase: string)
  {
    Upper(phase) == "FEHLER"
  }

  /** The list of additional images a phase selects. */
  function AdditionalKey(fehler: bool): string
  {
    if fehler then "add_fehler_list" else "add_after_list"
  }

  /** `save_additional_annotated_index`: an additional entry's overlay, typed by the phase. */
  method SaveAdditionalAnnotated(store: Store, rec: Dict, idx: int, overlay: Picture, projectId: string, phase: string)
    returns (r: Option<Dict>)
    requires store.Valid()
    modifies store
    ensures store.Valid() && store.regExists == old(store.regExists)
    ensures store.images == old(store.images) && store.videos == old(store.videos)
    ensures var key := AdditionalKey(IsFehlerPhase(phase));
      var t := if IsFehlerPhase(phase) then OverlayZusatzFehler else OverlayZusatzNacharbeit;
      EntrySaveDone(store, old(store.files), PlanEntrySave(rec, key, idx, projectId, t), overlay, rec, key, idx, r)
  {
    var fehler := IsFehlerPhase(phase);
    var t := if fehler then OverlayZusatzFehler else OverlayZusatzNacharbeit;
    r := SaveEntryOverlay(store, rec, AdditionalKey(fehler), idx, overlay, projectId, t);
  }

  /** Only the spellings of "fehler" select the Fehler list; every other phase, the empty one included, selects the Nacharbeit list. */
  lemma FehlerPhaseCases(phase: string)
    ensures IsFehlerPhase("fehler") && IsFehlerPhase("Fehler")
    ensures !IsFehlerPhase("") && !IsFehlerPhase("NACHARBEIT")
    ensures IsFehlerPhase(phase) ==> |phase| == 6
  {
    assert Upper("fehler") == "FEHLER" by {
      assert forall i :: 0 <= i < 6 ==> UpperChar("fehler"[i]) == "FEHLER"[i];
    }
    assert Upper("Fehler") == "FEHLER" by {
      assert forall i :: 0 <= i < 6 ==> UpperChar("Fehler"[i]) == "FEHLER"[i];
    }
  }

  // ------------------------------------------------------------ deleting entry overlays

  /** `entry.get("overlay") or entry.get("edited")` of a dict entry. */
  function EntryOverlay(e: Json): Json
  {
    if e.Obj? then Or(Get(e.fields, "overlay", Null), Get(e.fields, "edited", Null)) else Null
  }

  /** The deleting loops get past this entry: it is a dict and its overlay, when set, is text. */
  predicate Scannable(e: Json)
  {
    e.Obj? && (Truthy(EntryOverlay(e)) ==> EntryOverlay(e).Str?)
  }

  /** The overlay file an entry owns and the deleting loops delete. */
  function DeletableRef(e: Json): Option<string>
  {
    var o := EntryOverlay(e);
    if Truthy(o) && o.Str? && IsOverlayRef(o.s) then Some(o.s) else None
  }

  /** Deleting `ref` may have removed path `p`: the reference itself when absolute, else one of its candidate paths. */
  predicate MayRemove(store: Store, p: string, ref: string)
  {
    if IsAbs(ref) then p == ref else p in store.Candidates(ref, None)
  }

  /** The store now holds a subset of the files it held, with the same contents: it only deleted. */
  predicate SubMap(now: map<string, Bytes>, before: map<string, Bytes>)
  {
    forall p :: p in now ==> p in before && now[p] == before[p]
  }

  /**
   * The file deleting an entry's overlay removes: where the entry's overlay
   * reference resolves, unless the file system refuses the removal there.
   */
  function OwnedFile(store: Store, e: Json): Option<string>
    reads store
  {
    if DeletableRef(e).Some? then
      var p := store.Resolve(DeletableRef(e).value, None);
      if p.Some? && p.value !in store.failing then p else None
    else None
  }

  /** `ref` resolves to `p` among the files `files`: the first of its candidates there. */
  predicate ResolvesOver(store: Store, files: map<string, Bytes>, ref: string, p: string)
  {
    ref != "" && p in files
    && if IsAbs(ref) then p == ref
       else var cands := store.Candidates(ref, None);
         exists k :: 0 <= k < |cands| && cands[k] == p && forall j :: 0 <= j < k ==> cands[j] !in files
  }

  /** What the store resolves a reference to is where it resolves among the store's files. */
  lemma ResolvedOverFiles(store: Store, ref: string)
    requires store.Resolve(ref, None).Some?
    ensures ResolvesOver(store, store.files, ref, store.Resolve(ref, None).value)
  {
  }

  /**
   * Deleting only shrinks the files: a reference that resolved to a file
   * still present resolves to it again, since no earlier candidate has appeared.
   */
  lemma StillResolves(store: Store, before: map<string, Bytes>, ref: string, p: string)
    requires SubMap(store.files, before) && ResolvesOver(store, before, ref, p) && p in store.files
    ensures store.Resolve(ref, None) == Some(p)
  {
    if !IsAbs(ref) {
      var cands := store.Candidates(ref, None);
      var k :| 0 <= k < |cands| && cands[k] == p && forall j :: 0 <= j < k ==> cands[j] !in before;
      var r := store.FirstExisting(cands);
      if r.Some? {
        var k2 :| 0 <= k2 < |cands| && cands[k2] == r.value && forall j :: 0 <= j < k2 ==> cands[j] !in store.files;
      }
    }
  }

  /** The overlay part of one loop step: delete the entry's overlay file when it has one; `raised` where `entry.get` or `is_overlay_ref` raises. */
  method DeleteEntryOverlay(store: Store, e: Json) returns (raised: bool)
    requires store.Valid()
    modifies store
    ensures store.Valid() && store.regExists == old(store.regExists)
    ensures store.images == old(store.images) && store.videos == old(store.videos)
    ensures raised <==> !Scannable(e)
    ensures SubMap(store.files, old(store.files))
    ensures DeletableRef(e).None? ==> store.files == old(store.files)
    ensures forall p :: p in old(store.files) && p !in store.files ==>
              DeletableRef(e).Some? && MayRemove(store, p, DeletableRef(e).value)
    ensures old(OwnedFile(store, e)).Some? ==> store.files == old(store.files) - {old(OwnedFile(store, e)).value}
    ensures old(OwnedFile(store, e)).None? ==> store.files == old(store.files)
  {
    if !e.Obj? {
      return true;
    }
    var o := EntryOverlay(e);
    if !Truthy(o) {
      return false;
    }
    if !o.Str? {
      return true;
    }
    if IsOverlayRef(o.s) {
      ghost var res := store.Resolve(o.s, None);
      var ok := store.DeleteGlobalMedia(o.s);
    }
    raised := false;
  }

  /** The file each entry owns, in order. */
  function OwnedFiles(store: Store, items: seq<Json>): (r: seq<Option<string>>)
    reads store
    ensures |r| == |items| && forall j :: 0 <= j < |items| ==> r[j] == OwnedFile(store, items[j])
  {
    if items == [] then [] else [OwnedFile(store, items[0])] + OwnedFiles(store, items[1..])
  }

  /** Each owned file is where its entry's reference resolves among `files`. */
  predicate OwnedOver(store: Store, files: map<string, Bytes>, items: seq<Json>, owned: seq<Option<string>>)
    requires |owned| == |items|
  {
    forall j :: 0 <= j < |items| && owned[j].Some? ==>
      DeletableRef(items[j]).Some? && ResolvesOver(store, files, DeletableRef(items[j]).value, owned[j].value)
  }

  /** The files owned by the first `n` entries are gone. */
  predicate OwnedGone(files: map<string, Bytes>, owned: seq<Option<string>>, n: int)
    requires 0 <= n <= |owned|
  {
    forall j :: 0 <= j < n && owned[j].Some? ==> owned[j].value !in files
  }

  /** The loop got past the first `n` entries. */
  predicate ScannableUpTo(items: seq<Json>, n: int)
    requires 0 <= n <= |items|
  {
    forall j :: 0 <= j < n ==> Scannable(items[j])
  }

  lemma ScannableStep(items: seq<Json>, n: nat)
    requires n < |items| && ScannableUpTo(items, n) && Scannable(items[n])
    ensures ScannableUpTo(items, n + 1)
  {
  }

  /** One more owned file gone, and none come back. */
  lemma OwnedGoneStep(before: map<string, Bytes>, after: map<string, Bytes>, owned: seq<Option<string>>, i: nat)
    requires i < |owned| && OwnedGone(before, owned, i) && SubMap(after, before)
    requires owned[i].Some? ==> owned[i].value !in after
    ensures OwnedGone(after, owned, i + 1)
  {
  }

  /** When the loop stops at `n` (the end, or an entry it cannot get past), every owned file of the entries it got to is gone. */
  lemma GoneBeforeRaise(files: map<string, Bytes>, items: seq<Json>, owned: seq<Option<string>>, n: nat)
    requires |owned| == |items| && n <= |items| && OwnedGone(files, owned, n)
    requires n < |items| ==> !Scannable(items[n]) && owned[n].None?
    ensures forall i :: 0 <= i < |items| && (forall j :: 0 <= j < i ==> Scannable(items[j])) ==>
              (owned[i].Some? ==> owned[i].value !in files)
  {
    forall i | 0 <= i < |items| && (forall j :: 0 <= j < i ==> Scannable(items[j])) && owned[i].Some?
      ensures owned[i].value !in files
    {
      if i > n {
        assert false;
      }
    }
  }

  /**
   * The loop that deletes the overlays of a list's entries, as attaching
   * context images and detaching all of them do. It stops at the first entry
   * it cannot read. Every entry before that point has its overlay file
   * deleted; base images are never deleted: every removed file is where some
   * entry's overlay reference points.
   */
  method DeleteListOverlays(store: Store, items: seq<Json>) returns (raised: bool)
    requires store.Valid()
    modifies store
    ensures store.Valid() && store.regExists == old(store.regExists)
    ensures store.images == old(store.images) && store.videos == old(store.videos)
    ensures raised <==> exists i :: 0 <= i < |items| && !Scannable(items[i])
    ensures SubMap(store.files, old(store.files))
    ensures forall p :: p in old(store.files) && p !in store.files ==>
              exists i :: 0 <= i < |items| && DeletableRef(items[i]).Some? && MayRemove(store, p, DeletableRef(items[i]).value)
    ensures forall i :: 0 <= i < |items| && (forall j :: 0 <= j < i ==> Scannable(items[j])) ==>
              (old(OwnedFile(store, items[i])).Some? ==> old(OwnedFile(store, items[i])).value !in store.files)
  {
    ghost var owned := OwnedFiles(store, items);
    forall j | 0 <= j < |items| && owned[j].Some?
      ensures DeletableRef(items[j]).Some? && ResolvesOver(store, store.files, DeletableRef(items[j]).value, owned[j].value)
    {
      ResolvedOverFiles(store, DeletableRef(items[j]).value);
    }
    assert OwnedOver(store, store.files, items, owned);
    var i := 0;
    while i < |items|
      invariant 0 <= i <= |items|
      invariant store.Valid() && store.regExists == old(store.regExists)
      invariant store.images == old(store.images) && store.videos == old(store.videos)
      invariant ScannableUpTo(items, i)
      invariant SubMap(store.files, old(store.files))
      invariant forall p :: p in old(store.files) && p !in store.files ==>
                  exists j :: 0 <= j < i && DeletableRef(items[j]).Some? && MayRemove(store, p, DeletableRef(items[j]).value)
      invariant OwnedGone(store.files, owned, i)
    {
      ghost var before := store.files;
      if owned[i].Some? && owned[i].value in store.files {
        assert OwnedOver(store, old(store.files), items, owned);
        StillResolves(store, old(store.files), DeletableRef(items[i]).value, owned[i].value);
        assert OwnedFile(store, items[i]) == owned[i];
      }
      var r := DeleteEntryOverlay(store, items[i]);
      if r {
        GoneBeforeRaise(store.files, items, owned, i);
        return true;
      }
      ScannableStep(items, i);
      forall p | p in old(store.files) && p !in store.files
        ensures exists j :: 0 <= j < i + 1 && DeletableRef(items[j]).Some? && MayRemove(store, p, DeletableRef(items[j]).value)
      {
        if p in before {
          assert DeletableRef(items[i]).Some? && MayRemove(store, p, DeletableRef(items[i]).value);
        }
      }
      assert owned[i].Some? ==> owned[i].value !in store.files;
      OwnedGoneStep(before, store.files, owned, i);
      i := i + 1;
    }
    GoneBeforeRaise(store.files, items, owned, i);
    raised := false;
  }

  // ------------------------------------------------------------ attaching

  /** The entry appended for an attached image: base and legacy raw are the reference, no overlay. */
  function NewEntry(ref: string): Json
  {
    Obj(map["base" := Str(ref), "overlay" := Null, "raw" := Str(ref), "edited" := Null])
  }

  /** A new entry is already mirrored, and owns no overlay file. */
  lemma NewEntryNormal(ref: string)
    ensures MirrorEntry(NewEntry(ref)) == NewEntry(ref)
    ensures NewEntry(ref).Obj? && Mirrored(NewEntry(ref).fields)
    ensures Scannable(NewEntry(ref)) && DeletableRef(NewEntry(ref)).None?
  {
    var d := NewEntry(ref).fields;
    assert SetDefault(d, "base", Get(d, "raw", Null)) == d;
    assert SetDefault(d, "overlay", Get(d, "edited", Null)) == d;
  }

  /** The entries `for entry in v` walks: a list's items; nothing for an empty string or dict; `None` where the walk raises at once. */
  function EntriesOf(v: Json): Option<seq<Json>>
  {
    if v.Arr? then Some(v.items)
    else if v == Str("") || v == Obj(map[]) then Some([])
    else None
  }

  /** An upload's outcome as the attaching loops accept it: nothing to attach exactly when no picture is given, and no failure. */
  predicate UploadOutcome(codec: Codec, args: AttachArgs, o: Outcome)
  {
    o != Raised && DecodeImage(codec, args) != DecodeFailed
    && (o == NotAttached <==> DecodeImage(codec, args) == NoInput)
  }

  /** `ref` resolves among the files `fs`: it exists when absolute, or one of its candidate paths does. */
  predicate ResolvesIn(store: Store, fs: map<string, Bytes>, ref: string)
  {
    ref != "" && if IsAbs(ref) then ref in fs else exists k :: 0 <= k < |store.Candidates(ref, None)| && store.Candidates(ref, None)[k] in fs
  }

  /** A reference resolves in the store exactly when it resolves among the store's files. */
  lemma ResolvesInStore(store: Store, ref: string)
    ensures store.Resolve(ref, None).Some? <==> ResolvesIn(store, store.files, ref)
  {
    if ref != "" && !IsAbs(ref) && store.Resolve(ref, None).Some? {
      var c := store.Candidates(ref, None);
      var k :| 0 <= k < |c| && c[k] == store.Resolve(ref, None).value && forall j :: 0 <= j < k ==> c[j] !in store.files;
    }
  }

  /** More files never stop a reference from resolving. */
  lemma ResolvesInGrows(store: Store, fs: map<string, Bytes>, fs': map<string, Bytes>, ref: string)
    requires ResolvesIn(store, fs, ref) && fs.Keys <= fs'.Keys
    ensures ResolvesIn(store, fs', ref)
  {
    if !IsAbs(ref) {
      var k :| 0 <= k < |store.Candidates(ref, None)| && store.Candidates(ref, None)[k] in fs;
      assert store.Candidates(ref, None)[k] in fs';
    }
  }

  /**
   * An upload gave an outcome the attaching loops accept, and when it
   * attached it is registered under its content hash in `images` with the
   * very reference its entry gets, which resolves among the files `fs`.
   */
  predicate UploadAttached(store: Store, args: AttachArgs, o: Outcome, images: map<string, string>, fs: map<string, Bytes>)
  {
    UploadOutcome(store.codec, args, o)
    && (o.Attached? ==>
          UploadHash(store.codec, args) in images && images[UploadHash(store.codec, args)] == o.ref
          && ResolvesIn(store, fs, o.ref))
  }

  /** The first `|outcomes|` uploads gave these outcomes, each attached as `UploadAttached` says. */
  predicate UploadsAttached(store: Store, files: seq<AttachArgs>, outcomes: seq<Outcome>,
                            images: map<string, string>, fs: map<string, Bytes>)
    requires |outcomes| <= |files|
  {
    forall i :: 0 <= i < |outcomes| ==> UploadAttached(store, files[i], outcomes[i], images, fs)
  }

  /** An earlier attached upload stays attached across one more accepted upload. */
  lemma AttachedKept(store: Store, args: AttachArgs, prev: Outcome, next: AttachArgs, o: Outcome, reg: bool,
                     images: map<string, string>, images': map<string, string>,
                     fs: map<string, Bytes>, fs': map<string, Bytes>)
    requires UploadAttached(store, args, prev, images, fs) && (prev.Attached? ==> reg)
    requires UploadOutcome(store.codec, next, o) && fs.Keys <= fs'.Keys
    requires !o.Attached? ==> images' == images
    requires o.Attached? ==>
               var h := UploadHash(store.codec, next);
               (forall k :: k in images && k != h ==> k in images' && images'[k] == images[k])
               && (reg && h in images && ResolvesIn(store, fs, images[h]) ==> o == Attached(images[h]) && images' == images)
    ensures UploadAttached(store, args, prev, images', fs')
  {
    if prev.Attached? {
      ResolvesInGrows(store, fs, fs', prev.ref);
    }
  }

  /**
   * One more accepted upload keeps the earlier ones attached: an upload
   * with an earlier upload's hash finds that upload's resolving entry and
   * changes nothing, one with another hash leaves the earlier entries, and
   * files are only added or replaced.
   */
  lemma AttachedSnoc(store: Store, files: seq<AttachArgs>, outcomes: seq<Outcome>, o: Outcome, reg: bool,
                     images: map<string, string>, images': map<string, string>,
                     fs: map<string, Bytes>, fs': map<string, Bytes>)
    requires |outcomes| < |files| && UploadsAttached(store, files, outcomes, images, fs)
    requires forall i :: 0 <= i < |outcomes| && outcomes[i].Attached? ==> reg
    requires UploadAttached(store, files[|outcomes|], o, images', fs') && fs.Keys <= fs'.Keys
    requires !o.Attached? ==> images' == images
    requires o.Attached? ==>
               var h := UploadHash(store.codec, files[|outcomes|]);
               (forall k :: k in images && k != h ==> k in images' && images'[k] == images[k])
               && (reg && h in images && ResolvesIn(store, fs, images[h]) ==> o == Attached(images[h]) && images' == images)
    ensures UploadsAttached(store, files, outcomes + [o], images', fs')
  {
    var n := |outcomes|;
    var outs := outcomes + [o];
    forall i | 0 <= i < |outs|
      ensures UploadAttached(store, files[i], outs[i], images', fs')
    {
      if i < n {
        assert outs[i] == outcomes[i];
        assert UploadAttached(store, files[i], outcomes[i], images, fs);
        AttachedKept(store, files[i], outcomes[i], files[n], o, reg, images, images', fs, fs');
      }
    }
  }

  /** Files changed from `before` only at the paths `written`, and none removed. */
  predicate OnlyWritten(before: map<string, Bytes>, after: map<string, Bytes>, written: set<string>)
  {
    before.Keys <= after.Keys && forall p :: p in after && (p !in before || after[p] != before[p]) ==> p in written
  }

  /** Where the uploads named with `uids` would be written. */
  function UploadPaths(store: Store, uids: seq<string>): set<string>
    requires forall i :: 0 <= i < |uids| ==> IsHexId(uids[i])
  {
    set i | 0 <= i < |uids| :: store.NewImagePath(uids[i])
  }

  /**
   * The files the entries before the first unreadable one owned are gone,
   * unless one is `spared`: the path a new upload was written to.
   */
  predicate OwnedRemoved(files: map<string, Bytes>, entries: seq<Json>, owned: seq<Option<string>>, spared: string)
    requires |owned| == |entries|
  {
    forall i :: 0 <= i < |entries| && (forall j :: 0 <= j < i ==> Scannable(entries[j])) && owned[i].Some? ==>
      owned[i].value !in files || owned[i].value == spared
  }

  /** The entries the attached uploads append, in order: one per outcome with a non-empty reference. */
  function AttachedEntries(outs: seq<Outcome>): (r: seq<Json>)
    ensures |r| <= |outs|
  {
    if outs == [] then []
    else
      var last := outs[|outs| - 1];
      AttachedEntries(outs[..|outs| - 1]) + (if last.Attached? && last.ref != "" then [NewEntry(last.ref)] else [])
  }

  /** One more upload appends its entry when it attached with a reference, else nothing. */
  lemma AttachedEntriesSnoc(outs: seq<Outcome>, o: Outcome)
    ensures AttachedEntries(outs + [o]) == AttachedEntries(outs) + if o.Attached? && o.ref != "" then [NewEntry(o.ref)] else []
  {
    assert (outs + [o])[..|outs|] == outs;
  }

  /** A single upload appends its entry when it attached with a reference, else nothing. */
  lemma AttachedEntriesOne(o: Outcome)
    ensures AttachedEntries([o]) == if o.Attached? && o.ref != "" then [NewEntry(o.ref)] else []
  {
    AttachedEntriesSnoc([], o);
  }

  /** Every entry the attached uploads append is a fresh one. */
  lemma {:induction false} AttachedEntriesNew(outs: seq<Outcome>)
    ensures forall j :: 0 <= j < |AttachedEntries(outs)| ==> IsNewEntry(AttachedEntries(outs)[j])
  {
    if outs != [] {
      AttachedEntriesNew(outs[..|outs| - 1]);
      var last := outs[|outs| - 1];
      if last.Attached? && last.ref != "" {
        NewEntryNormal(last.ref);
      }
    }
  }

  /** One more file written at `p`, one of the paths `written`, keeps the files changed only there. */
  lemma OnlyWrittenStep(before: map<string, Bytes>, mid: map<string, Bytes>, after: map<string, Bytes>,
                        written: set<string>, p: string)
    requires OnlyWritten(before, mid, written) && p in written
    requires after == mid || (p in after && after == mid[p := after[p]])
    ensures OnlyWritten(before, after, written)
  {
  }

  /**
   * `attach_context_images`: with at least one upload, the overlays of the
   * old context entries are deleted, the list is emptied, and the first
   * upload only is attached through the media store and becomes the single
   * entry. `uid` is the random id a new file would be named with; `outcome`
   * is what attaching the first upload gave. Only the old entries' overlay
   * files are removed, and only the new upload's file is written.
   */
  method AttachContextImages(store: Store, rec: Dict, files: seq<AttachArgs>, uid: string, listing: seq<string>)
    returns (r: Option<Dict>, ghost outcome: Outcome)
    requires store.Valid() && IsHexId(uid)
    modifies store
    ensures store.Valid()
    ensures |files| == 0 ==> r == Some(rec) && store.files == old(store.files)
    ensures |files| > 0 && EntriesOf(Get(rec, "ctx_list", Arr([]))).None? ==> r.None? && store.files == old(store.files)
    ensures forall p :: p in store.files ==>
              (p in old(store.files) && store.files[p] == old(store.files)[p]) || p == store.NewImagePath(uid)
    ensures r.Some? && |files| > 0 ==>
              UploadsAttached(store, files, [outcome], store.images, store.files)
              && r.value == rec["ctx_list" := Arr(AttachedEntries([outcome]))]
              && (outcome.Attached? ==> store.Resolve(outcome.ref, None).Some?)
    ensures |files| > 0 && EntriesOf(Get(rec, "ctx_list", Arr([]))).Some? ==>
              var entries := EntriesOf(Get(rec, "ctx_list", Arr([]))).value;
              ((forall i :: 0 <= i < |entries| ==> Scannable(entries[i])) ==>
                 (DecodeImage(store.codec, files[0]) == DecodeFailed ==> r.None?)
                 && (r.None? ==> DecodeImage(store.codec, files[0]) == DecodeFailed
                                 || store.NewImagePath(uid) in store.failing))
              && OwnedRemoved(store.files, entries, old(OwnedFiles(store, entries)), store.NewImagePath(uid))
              && (forall p :: p in old(store.files) && p !in store.files ==>
                    exists i :: 0 <= i < |entries| && DeletableRef(entries[i]).Some?
                                && MayRemove(store, p, DeletableRef(entries[i]).value))
  {
    outcome := NotAttached;
    if |files| == 0 {
      return Some(rec), outcome;
    }
    var entries := EntriesOf(Get(rec, "ctx_list", Arr([])));
    if entries.None? {
      return None, outcome;
    }
    ghost var owned := OwnedFiles(store, entries.value);
    ghost var spared := store.NewImagePath(uid);
    var raised := DeleteListOverlays(store, entries.value);
    assert OwnedRemoved(store.files, entries.value, owned, spared);
    if raised {
      return None, outcome;
    }
    ghost var before := store.files;
    var o := store.AttachMedia(None, ImageKind, files[0], uid, listing);
    outcome := o;
    assert store.files == before || store.files == before[spared := store.files[spared]];
    assert OwnedRemoved(store.files, entries.value, owned, spared);
    if o == Raised {
      return None, outcome;
    }
    if o.Attached? {
      ResolvesInStore(store, o.ref);
    }
    var attached := if o.Attached? && o.ref != "" then [NewEntry(o.ref)] else [];
    AttachedEntriesOne(o);
    r := Some(rec["ctx_list" := Arr(attached)]);
  }

  /** A freshly attached entry. */
  predicate IsNewEntry(e: Json)
  {
    e.Obj? && "base" in e.fields && e.fields["base"].Str? && e == NewEntry(e.fields["base"].s)
  }

  /**
   * `attach_additional_images`: every upload is attached through the media
   * store in order and each attached one appended to the list the phase
   * selects, which `setdefault` creates when missing. `uids` are the random
   * ids of the uploads; `outcomes` what attaching each gave. A list value
   * that is not a list raises at the first append.
   */
  method AttachAdditionalImages(store: Store, rec: Dict, files: seq<AttachArgs>, uids: seq<string>,
                                listing: seq<string>, phase: string) returns (r: Option<Dict>, ghost outcomes: seq<Outcome>)
    requires store.Valid() && |uids| == |files| && forall i :: 0 <= i < |uids| ==> IsHexId(uids[i])
    modifies store
    ensures store.Valid()
    ensures |files| == 0 ==> r == Some(rec) && store.files == old(store.files)
    ensures OnlyWritten(old(store.files), store.files, UploadPaths(store, uids))
    ensures r.Some? && |files| > 0 ==>
              var key := AdditionalKey(IsFehlerPhase(phase));
              var v := Get(rec, key, Arr([]));
              (forall k :: k != key ==> (k in r.value <==> k in rec) && (k in rec ==> r.value[k] == rec[k]))
              && (v.Arr? ==>
                    key in r.value && r.value[key].Arr?
                    && v.items <= r.value[key].items && |r.value[key].items| <= |v.items| + |files|
                    && forall j :: |v.items| <= j < |r.value[key].items| ==> IsNewEntry(r.value[key].items[j]))
              && (!v.Arr? ==> r.value == rec)
    ensures r.Some? ==>
              |outcomes| == |files| && UploadsAttached(store, files, outcomes, store.images, store.files)
              && forall i :: 0 <= i < |outcomes| && outcomes[i].Attached? ==> store.Resolve(outcomes[i].ref, None).Some?
    ensures r.Some? && |files| > 0 ==>
              var key := AdditionalKey(IsFehlerPhase(phase));
              var v := Get(rec, key, Arr([]));
              (v.Arr? ==> r.value == rec[key := Arr(v.items + AttachedEntries(outcomes))])
              && (!v.Arr? ==> AttachedEntries(outcomes) == [])
    ensures (Get(rec, AdditionalKey(IsFehlerPhase(phase)), Arr([])).Arr?
             && forall i :: 0 <= i < |files| ==>
                  DecodeImage(store.codec, files[i]) != DecodeFailed && store.NewImagePath(uids[i]) !in store.failing)
            ==> r.Some?
  {
    outcomes := [];
    if |files| == 0 {
      return Some(rec), outcomes;
    }
    var key := AdditionalKey(IsFehlerPhase(phase));
    var v := Get(rec, key, Arr([]));
    var ok, added;
    ok, added, outcomes := AttachEach(store, files, uids, listing, v.Arr?);
    if !ok {
      return None, outcomes;
    }
    AttachedEntriesNew(outcomes);
    if v.Arr? {
      r := Some(rec[key := Arr(v.items + added)]);
    } else {
      r := Some(rec);
    }
  }

  /**
   * The loop of `attach_additional_images`: attach every upload in order and
   * collect the entries to append. Not `ok` where an upload raises (it fails
   * to decode, or its write is refused), or where one attaches and the list
   * cannot be appended to. Each appended entry's reference is the one
   * registered for its upload's content and resolves to a stored file.
   */
  method AttachEach(store: Store, files: seq<AttachArgs>, uids: seq<string>, listing: seq<string>, appendable: bool)
    returns (ok: bool, added: seq<Json>, ghost outcomes: seq<Outcome>)
    requires store.Valid() && |uids| == |files| && forall i :: 0 <= i < |uids| ==> IsHexId(uids[i])
    modifies store
    ensures store.Valid()
    ensures OnlyWritten(old(store.files), store.files, UploadPaths(store, uids))
    ensures ok ==> |outcomes| == |files| && UploadsAttached(store, files, outcomes, store.images, store.files)
    ensures ok ==> forall i :: 0 <= i < |outcomes| && outcomes[i].Attached? ==> store.Resolve(outcomes[i].ref, None).Some?
    ensures ok ==> added == AttachedEntries(outcomes) && (!appendable ==> added == [])
    ensures (appendable && forall i :: 0 <= i < |files| ==>
               DecodeImage(store.codec, files[i]) != DecodeFailed && store.NewImagePath(uids[i]) !in store.failing) ==> ok
  {
    outcomes := [];
    added := [];
    var i := 0;
    while i < |files|
      invariant 0 <= i <= |files| && store.Valid() && |outcomes| == i
      invariant added == AttachedEntries(outcomes)
      invariant !appendable ==> added == []
      invariant UploadsAttached(store, files, outcomes, store.images, store.files)
      invariant forall j :: 0 <= j < i && outcomes[j].Attached? ==> store.regExists
      invariant OnlyWritten(old(store.files), store.files, UploadPaths(store, uids))
    {
      ghost var images, fs, reg := store.images, store.files, store.regExists;
      if DecodeImage(store.codec, files[i]).Decoded? && UploadHash(store.codec, files[i]) in store.images {
        ResolvesInStore(store, store.images[UploadHash(store.codec, files[i])]);
      }
      var o := store.AttachMedia(None, ImageKind, files[i], uids[i], listing);
      if o == Raised {
        return false, added, outcomes;
      }
      assert store.NewImagePath(uids[i]) in UploadPaths(store, uids);
      OnlyWrittenStep(old(store.files), fs, store.files, UploadPaths(store, uids), store.NewImagePath(uids[i]));
      if o.Attached? {
        ResolvesInStore(store, o.ref);
      }
      AttachedSnoc(store, files, outcomes, o, reg, images, store.images, fs, store.files);
      AttachedEntriesSnoc(outcomes, o);
      outcomes := outcomes + [o];
      if o.Attached? && o.ref != "" {
        if !appendable {
          return false, added, outcomes;
        }
        added := added + [NewEntry(o.ref)];
      }
      i := i + 1;
    }
    forall j | 0 <= j < |outcomes| && outcomes[j].Attached?
      ensures store.Resolve(outcomes[j].ref, None).Some?
    {
      ResolvesInStore(store, outcomes[j].ref);
    }
    ok := true;
  }

  // ------------------------------------------------------------ detaching

  /** `del lst[i]`. */
  function Remove(items: seq<Json>, i: int): seq<Json>
    requires 0 <= i < |items|
  {
    items[..i] + items[i + 1..]
  }

  /** Removing an entry keeps the others in order. */
  lemma RemoveFacts(items: seq<Json>, i: int)
    requires 0 <= i < |items|
    ensures var r := Remove(items, i);
      |r| == |items| - 1
      && (forall j :: 0 <= j < i ==> r[j] == items[j])
      && (forall j :: i <= j < |r| ==> r[j] == items[j + 1])
  {
  }

  /** What detaching entry `idx` of list `key` does to the record: `None` where the source raises. */
  function DetachedAt(rec: Dict, key: string, idx: int): Option<Dict>
  {
    var v := Get(rec, key, Arr([]));
    match EntryCount(v)
    case None => None
    case Some(n) =>
      if !(0 <= idx < n) then Some(rec)
      else if !v.Arr? || !Scannable(v.items[idx]) then None
      else Some(rec[key := Arr(Remove(v.items, idx))])
  }

  /**
   * Detaching an index outside the list leaves the record as it was;
   * detaching one inside removes exactly that entry and nothing else.
   */
  lemma DetachedAtFacts(rec: Dict, key: string, idx: int)
    ensures var v := Get(rec, key, Arr([]));
      (v.Arr? && !(0 <= idx < |v.items|) ==> DetachedAt(rec, key, idx) == Some(rec))
      && (v.Arr? && 0 <= idx < |v.items| && Scannable(v.items[idx]) ==>
            var r := DetachedAt(rec, key, idx).value;
            r[key] == Arr(Remove(v.items, idx)) && |r[key].items| == |v.items| - 1
            && (forall k :: k != key ==> (k in r <==> k in rec) && (k in rec ==> r[k] == rec[k])))
  {
  }

  /** One detach by index: delete the entry's overlay file when it owns one, then remove the entry. */
  method DetachAt(store: Store, rec: Dict, key: string, idx: int) returns (r: Option<Dict>)
    requires store.Valid()
    modifies store
    ensures store.Valid() && store.images == old(store.images) && store.videos == old(store.videos)
    ensures r == DetachedAt(rec, key, idx)
    ensures SubMap(store.files, old(store.files))
    ensures var v := Get(rec, key, Arr([]));
      !(v.Arr? && 0 <= idx < |v.items| && DeletableRef(v.items[idx]).Some?) ==> store.files == old(store.files)
    ensures var v := Get(rec, key, Arr([]));
      forall p :: p in old(store.files) && p !in store.files ==>
        v.Arr? && 0 <= idx < |v.items| && DeletableRef(v.items[idx]).Some?
        && MayRemove(store, p, DeletableRef(v.items[idx]).value)
    ensures var v := Get(rec, key, Arr([]));
      v.Arr? && 0 <= idx < |v.items| && old(OwnedFile(store, v.items[idx])).Some? ==>
        store.files == old(store.files) - {old(OwnedFile(store, v.items[idx])).value}
  {
    var v := Get(rec, key, Arr([]));
    var count := EntryCount(v);
    if count.None? {
      return None;
    }
    if !(0 <= idx < count.value) {
      return Some(rec);
    }
    if !v.Arr? {
      return None;
    }
    var raised := DeleteEntryOverlay(store, v.items[idx]);
    if raised {
      return None;
    }
    r := Some(rec[key := Arr(Remove(v.items, idx))]);
  }

  /**
   * `detach_context_image`: with no index every context entry's overlay is
   * deleted and the list emptied; with an index, that entry alone.
   */
  method DetachContextImage(store: Store, rec: Dict, ctxIndex: Option<int>) returns (r: Option<Dict>)
    requires store.Valid()
    modifies store
    ensures store.Valid() && store.images == old(store.images) && store.videos == old(store.videos)
    ensures SubMap(store.files, old(store.files))
    ensures ctxIndex.Some? ==> r == DetachedAt(rec, "ctx_list", ctxIndex.value)
    ensures ctxIndex.Some? ==>
              var v := Get(rec, "ctx_list", Arr([]));
              !(v.Arr? && 0 <= ctxIndex.value < |v.items| && DeletableRef(v.items[ctxIndex.value]).Some?) ==>
                store.files == old(store.files)
    ensures ctxIndex.Some? ==>
              var v := Get(rec, "ctx_list", Arr([]));
              forall p :: p in old(store.files) && p !in store.files ==>
                v.Arr? && 0 <= ctxIndex.value < |v.items| && DeletableRef(v.items[ctxIndex.value]).Some?
                && MayRemove(store, p, DeletableRef(v.items[ctxIndex.value]).value)
    ensures ctxIndex.None? && EntriesOf(Get(rec, "ctx_list", Arr([]))).None? ==> store.files == old(store.files)
    ensures ctxIndex.None? && EntriesOf(Get(rec, "ctx_list", Arr([]))).Some? ==>
              var entries := EntriesOf(Get(rec, "ctx_list", Arr([]))).value;
              forall p :: p in old(store.files) && p !in store.files ==>
                exists i :: 0 <= i < |entries| && DeletableRef(entries[i]).Some? && MayRemove(store, p, DeletableRef(entries[i]).value)
    ensures ctxIndex.Some? ==>
              var v := Get(rec, "ctx_list", Arr([]));
              v.Arr? && 0 <= ctxIndex.value < |v.items| && old(OwnedFile(store, v.items[ctxIndex.value])).Some? ==>
                store.files == old(store.files) - {old(OwnedFile(store, v.items[ctxIndex.value])).value}
    ensures ctxIndex.None? && EntriesOf(Get(rec, "ctx_list", Arr([]))).Some? ==>
              var entries := EntriesOf(Get(rec, "ctx_list", Arr([]))).value;
              forall i :: 0 <= i < |entries| && (forall j :: 0 <= j < i ==> Scannable(entries[j])) ==>
                (old(OwnedFile(store, entries[i])).Some? ==> old(OwnedFile(store, entries[i])).value !in store.files)
    ensures ctxIndex.None? ==>
              var entries := EntriesOf(Get(rec, "ctx_list", Arr([])));
              (entries.None? ==> r.None?)
              && (entries.Some? && (forall i :: 0 <= i < |entries.value| ==> Scannable(entries.value[i])) ==>
                    r == Some(rec["ctx_list" := Arr([])]))
  {
    if ctxIndex.None? {
      var entries := EntriesOf(Get(rec, "ctx_list", Arr([])));
      if entries.None? {
        return None;
      }
      var raised := DeleteListOverlays(store, entries.value);
      if raised {
        return None;
      }
      return Some(rec["ctx_list" := Arr([])]);
    }
    r := DetachAt(store, rec, "ctx_list", ctxIndex.value);
  }

  /** `str(phase or "FEHLER").upper() == "FEHLER"`: detaching reads an empty phase as FEHLER. */
  predicate IsDetachFehlerPhase(phase: string)
  {
    phase == "" || IsFehlerPhase(phase)
  }

  /** An empty phase saves and attaches to the Nacharbeit list but detaches from the Fehler list. */
  lemma EmptyPhaseLists()
    ensures AdditionalKey(IsFehlerPhase("")) == "add_after_list"
    ensures AdditionalKey(IsDetachFehlerPhase("")) == "add_fehler_list"
  {
  }

  /** `detach_additional_image`: one entry of the list the phase selects. */
  method DetachAdditionalImage(store: Store, rec: Dict, idx: int, phase: string) returns (r: Option<Dict>)
    requires store.Valid()
    modifies store
    ensures store.Valid() && store.images == old(store.images) && store.videos == old(store.videos)
    ensures SubMap(store.files, old(store.files))
    ensures r == DetachedAt(rec, AdditionalKey(IsDetachFehlerPhase(phase)), idx)
    ensures var v := Get(rec, AdditionalKey(IsDetachFehlerPhase(phase)), Arr([]));
      !(v.Arr? && 0 <= idx < |v.items| && DeletableRef(v.items[idx]).Some?) ==> store.files == old(store.files)
    ensures var v := Get(rec, AdditionalKey(IsDetachFehlerPhase(phase)), Arr([]));
      forall p :: p in old(store.files) && p !in store.files ==>
        v.Arr? && 0 <= idx < |v.items| && DeletableRef(v.items[idx]).Some?
        && MayRemove(store, p, DeletableRef(v.items[idx]).value)
    ensures var v := Get(rec, AdditionalKey(IsDetachFehlerPhase(phase)), Arr([]));
      v.Arr? && 0 <= idx < |v.items| && old(OwnedFile(store, v.items[idx])).Some? ==>
        store.files == old(store.files) - {old(OwnedFile(store, v.items[idx])).value}
  {
    r := DetachAt(store, rec, AdditionalKey(IsDetachFehlerPhase(phase)), idx);
  }
}
