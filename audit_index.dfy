/**
 * The project index as the application updates it in place: its list of
 * image records, its `counters` block and its `project` block. The image
 * counter, adding and cloning records, linking videos to a record and the
 * migration to the layered fields are methods of `ProjectIndex`; looking
 * records up is pure.
 */
module AuditIndex {
  import opened Wrappers
  import opened Text
  import opened Json
  import opened Seqs
  import opened MediaRefs
  import opened MediaStore
  import opened Records
  import opened RecordOps

  // ------------------------------------------------------------ the image counter

  /**
   * `int(counters.get("images", 0))` once `counters` is set to `{}` when
   * absent (`None` here); `None` where `.get` or `int` raises.
   */
  function CounterValue(counters: Option<Json>): Option<int>
  {
    match counters
    case None => Some(0)
    case Some(Obj(m)) => if "images" in m then PyInt(m["images"]) else Some(0)
    case Some(_) => None
  }

  /** The entries of the counters dict (`{}` when it is absent). */
  function CounterFields(counters: Option<Json>): Dict
  {
    if counters.Some? && counters.value.Obj? then counters.value.fields else map[]
  }

  /** The counters dict once the image counter is raised by one. */
  function Bumped(counters: Option<Json>): Option<Json>
    requires CounterValue(counters).Some?
  {
    Some(Obj(CounterFields(counters)["images" := Int(CounterValue(counters).value + 1)]))
  }

  /** Raising the counter adds exactly one to it and keeps every other counter. */
  lemma CounterStep(counters: Option<Json>)
    requires CounterValue(counters).Some?
    ensures CounterValue(Bumped(counters)) == Some(CounterValue(counters).value + 1)
    ensures forall k :: k != "images" && k in CounterFields(counters) ==>
              k in CounterFields(Bumped(counters)) && CounterFields(Bumped(counters))[k] == CounterFields(counters)[k]
  {
  }

  /** The number handed out is the new counter, zero-padded: it reads back as that counter. */
  lemma CounterNumberReadsBack(counters: Option<Json>)
    requires CounterValue(counters).Some?
    ensures var n := CounterValue(counters).value + 1;
      ParseInt(Format03(n)) == CounterValue(Bumped(counters))
  {
    var n := CounterValue(counters).value + 1;
    Format03RoundTrip(n);
  }

  /** An index without counters starts counting at one. */
  lemma CounterStartsAtOne()
    ensures CounterValue(None) == Some(0) && Bumped(None) == Some(Obj(map["images" := Int(1)]))
  {
  }

  // ------------------------------------------------------------ look-ups

  /** The record belongs to the audit: `r.get("audit_id") == audit_id`. */
  predicate InAudit(rec: Dict, auditId: string)
  {
    Get(rec, "audit_id", Null) == Str(auditId)
  }

  /** `_images_for_audit`: the audit's records in index order. */
  function ImagesForAudit(images: seq<Dict>, auditId: string): (r: seq<Dict>)
  {
    Filter(images, (rec: Dict) => InAudit(rec, auditId))
  }

  /** The audit's records are exactly the records of the index that belong to it, in index order. */
  lemma ImagesForAuditFacts(images: seq<Dict>, auditId: string)
    ensures var r := ImagesForAudit(images, auditId);
      IsSubsequence(r, images)
      && (forall rec :: rec in r <==> rec in images && InAudit(rec, auditId))
      && |r| <= |images|
  {
    FilterIsSubsequence(images, (rec: Dict) => InAudit(rec, auditId));
  }

  /** The reference `save_video_file` links: `base_videos/` and the stored file's name. */
  function VideoStoreRef(ref: string): string
  {
    "base_videos/" + Basename(LastSegment(ref))
  }

  /** The first position whose record satisfies `p`. */
  function FirstWhere(images: seq<Dict>, p: Dict -> bool): (r: Option<nat>)
    ensures r.Some? ==> r.value < |images| && p(images[r.value]) && forall j :: 0 <= j < r.value ==> !p(images[j])
    ensures r.None? ==> forall j :: 0 <= j < |images| ==> !p(images[j])
  {
    if images == [] then None
    else if p(images[0]) then Some(0)
    else match FirstWhere(images[1..], p)
      case None => None
      case Some(k) => Some(k + 1)
  }

  /** The record has the number: `r.get("nr") == nr`. */
  predicate HasNr(rec: Dict, nr: string)
  {
    Get(rec, "nr", Null) == Str(nr)
  }

  /**
   * `_find_image_idx_by_nr`: the first position holding the number; when
   * none does, the last position, or 0 for an empty list.
   */
  function FindImageIdxByNr(images: seq<Dict>, nr: string): (r: nat)
    ensures (exists i :: 0 <= i < |images| && HasNr(images[i], nr)) ==>
              r < |images| && HasNr(images[r], nr) && forall j :: 0 <= j < r ==> !HasNr(images[j], nr)
    ensures (forall i :: 0 <= i < |images| ==> !HasNr(images[i], nr)) ==>
              r == if |images| == 0 then 0 else |images| - 1
  {
    match FirstWhere(images, (rec: Dict) => HasNr(rec, nr))
    case Some(i) => i
    case None => if |images| == 0 then 0 else |images| - 1
  }

  /** Video linking looks for the record of the audit with the number. */
  predicate IsRecord(rec: Dict, auditId: string, nr: string)
  {
    InAudit(rec, auditId) && HasNr(rec, nr)
  }

  // ------------------------------------------------------------ migration

  /** `if d.get(src) and not d.get(dst): d[dst] = d[src]`. */
  function Promote(d: Dict, src: string, dst: string): Dict
  {
    if Truthy(Get(d, src, Null)) && !Truthy(Get(d, dst, Null)) then d[dst := Get(d, src, Null)] else d
  }

  /** Promoting twice is promoting once; afterwards the target is set whenever the source is. */
  lemma PromoteFacts(d: Dict, src: string, dst: string)
    requires src != dst
    ensures var r := Promote(d, src, dst);
      Promote(r, src, dst) == r
      && (Truthy(Get(d, src, Null)) ==> Truthy(Get(r, dst, Null)))
      && Get(r, src, Null) == Get(d, src, Null)
      && (Truthy(Get(d, dst, Null)) ==> r == d)
      && (forall k :: k != dst ==> (k in r <==> k in d) && (k in d ==> r[k] == d[k]))
  {
  }

  /** A list entry's layer fields, promoted from the legacy ones. */
  function MigrateEntry(e: Json): Json
  {
    if e.Obj? then Obj(Promote(Promote(e.fields, "raw", "base"), "edited", "overlay")) else e
  }

  /**
   * The entries after the migration loop: every entry up to the first one
   * that is not a dict is migrated, and the loop raises there (`true`).
   */
  function MigrateEntries(items: seq<Json>): (r: (seq<Json>, bool))
    ensures |r.0| == |items|
  {
    if items == [] then ([], false)
    else if !items[0].Obj? then (items, true)
    else
      var rest := MigrateEntries(items[1..]);
      ([MigrateEntry(items[0])] + rest.0, rest.1)
  }

  /**
   * `for entry in value or []`: a falsy value is skipped, a list has its
   * entries migrated, anything else raises at its first element.
   */
  function MigrateListValue(v: Json): (Json, bool)
  {
    if !Truthy(v) then (v, false)
    else if v.Arr? then
      var m := MigrateEntries(v.items);
      (Arr(m.0), m.1)
    else (v, true)
  }

  /** The migration of the list `key` of a record, in place. */
  function MigrateListAt(d: Dict, key: string): (Dict, bool)
  {
    var v := Get(d, key, Arr([]));
    var m := MigrateListValue(v);
    if v.Arr? && Truthy(v) then (d[key := m.0], m.1) else (d, m.1)
  }

  /** 1 when `Promote` copies the legacy field over, else 0: the migration counter's step. */
  function Promotes(d: Dict, src: string, dst: string): nat
  {
    if Truthy(Get(d, src, Null)) && !Truthy(Get(d, dst, Null)) then 1 else 0
  }

  /** The record's own layer fields, promoted from the legacy ones in the source's order. */
  function MigrateLayers(rec: Dict): Dict
  {
    Promote(Promote(Promote(Promote(rec, "raw", "base_image"), "edited", "overlay"),
                    "after_raw", "after_base"), "after_edited", "after_overlay")
  }

  /** The three entry lists in the source's order; the first that raises ends the record. */
  function MigrateLists(d: Dict): (Dict, bool)
  {
    var l1 := MigrateListAt(d, "ctx_list");
    if l1.1 then l1
    else
      var l2 := MigrateListAt(l1.0, "add_fehler_list");
      if l2.1 then l2
      else MigrateListAt(l2.0, "add_after_list")
  }

  /**
   * One record of `migrate_to_layered_architecture`: the record, the number
   * of base fields it promoted, and whether it raised (in one of its lists;
   * what was done before stays done).
   */
  function MigrateRecord(rec: Dict): (Dict, nat, bool)
  {
    var l := MigrateLists(MigrateLayers(rec));
    (l.0, Promotes(rec, "raw", "base_image") + Promotes(rec, "after_raw", "after_base"), l.1)
  }

  /** The error a record that raised adds; the exception's own text is not modelled. */
  function MigrationError(rec: Dict): string
  {
    "Migration error for record " + PyStr(Get(rec, "nr", Null))
  }

  /** The migration over a list of records: the migrated records, the counter and the errors. */
  function MigrateAll(images: seq<Dict>): (r: (seq<Dict>, nat, seq<string>))
    ensures |r.0| == |images|
  {
    if images == [] then ([], 0, [])
    else MigrateNext(MigrateAll(images[..|images| - 1]), images[|images| - 1])
  }

  /** The migration state after one more record: its migration appended, its count added, its error noted. */
  function MigrateNext(prev: (seq<Dict>, nat, seq<string>), rec: Dict): (r: (seq<Dict>, nat, seq<string>))
    ensures |r.0| == |prev.0| + 1
  {
    var m := MigrateRecord(rec);
    (prev.0 + [m.0], prev.1 + m.1, prev.2 + (if m.2 then [MigrationError(m.0)] else []))
  }

  /** Migrating one record more extends the result by that record. */
  lemma MigrateAllSnoc(images: seq<Dict>, i: nat)
    requires i < |images|
    ensures MigrateAll(images[..i + 1]) == MigrateNext(MigrateAll(images[..i]), images[i])
  {
    assert images[..i + 1][..i] == images[..i];
  }

  /** The loop state after migrating the first `i` records of `src`. */
  predicate MigratedPrefix(src: seq<Dict>, i: nat, done: seq<Dict>, migrated: nat, errors: seq<string>)
  {
    i <= |src| && MigrateAll(src[..i]) == (done, migrated, errors)
  }

  /** One turn of the migration loop: the record at `i` is replaced by its migration. */
  lemma MigrateStep(src: seq<Dict>, i: nat, done: seq<Dict>, images: seq<Dict>, m: (Dict, nat, bool),
                    migrated: nat, errors: seq<string>, errorsAfter: seq<string>)
    requires i < |src| && images == done + src[i..] && m == MigrateRecord(src[i])
    requires MigratedPrefix(src, i, done, migrated, errors)
    requires errorsAfter == if m.2 then errors + [MigrationError(m.0)] else errors
    ensures images[i := m.0] == (done + [m.0]) + src[i + 1..]
    ensures MigratedPrefix(src, i + 1, done + [m.0], migrated + m.1, errorsAfter)
  {
    UpdateAfterPrefix(done, src[i..], m.0);
    assert src[i..][1..] == src[i + 1..];
    MigratedPrefixSnoc(src, i, done, m, migrated, errors, errorsAfter);
  }

  /** The loop state grows by the migration of the record at `i`. */
  lemma MigratedPrefixSnoc(src: seq<Dict>, i: nat, done: seq<Dict>, m: (Dict, nat, bool),
                           migrated: nat, errors: seq<string>, errorsAfter: seq<string>)
    requires i < |src| && m == MigrateRecord(src[i])
    requires MigratedPrefix(src, i, done, migrated, errors)
    requires errorsAfter == if m.2 then errors + [MigrationError(m.0)] else errors
    ensures MigratedPrefix(src, i + 1, done + [m.0], migrated + m.1, errorsAfter)
  {
    MigrateAllSnoc(src, i);
    assert errors + [] == errors;
  }

  /** Every record of the result is that record migrated on its own. */
  lemma {:induction false} MigrateAllAt(images: seq<Dict>, i: nat)
    requires i < |images|
    ensures MigrateAll(images).0[i] == MigrateRecord(images[i]).0
  {
    if i < |images| - 1 {
      assert images[..|images| - 1][i] == images[i];
      MigrateAllAt(images[..|images| - 1], i);
    }
  }

  /** A migrated entry is a fixed point of the entry migration. */
  lemma MigrateEntryIdempotent(e: Json)
    ensures MigrateEntry(MigrateEntry(e)) == MigrateEntry(e)
  {
    if e.Obj? {
      var a := Promote(e.fields, "raw", "base");
      PromoteFacts(e.fields, "raw", "base");
      PromoteFacts(a, "edited", "overlay");
      var b := Promote(a, "edited", "overlay");
      assert Get(b, "raw", Null) == Get(a, "raw", Null);
      assert Get(b, "base", Null) == Get(a, "base", Null);
      assert Promote(b, "raw", "base") == b;
    }
  }

  /** Migrating the entries again changes nothing and raises at the same entry. */
  lemma {:induction false} MigrateEntriesIdempotent(items: seq<Json>)
    ensures MigrateEntries(MigrateEntries(items).0) == MigrateEntries(items)
  {
    if items != [] && items[0].Obj? {
      var rest := MigrateEntries(items[1..]);
      MigrateEntriesIdempotent(items[1..]);
      MigrateEntryIdempotent(items[0]);
      var out := [MigrateEntry(items[0])] + rest.0;
      assert out[1..] == rest.0;
    }
  }

  /** A list value the migration leaves as it is, without raising. */
  predicate ListSettled(v: Json)
  {
    MigrateListValue(v) == (v, false)
  }

  /** A list value that migrated without raising is settled. */
  lemma MigrateListValueSettles(v: Json)
    requires !MigrateListValue(v).1
    ensures ListSettled(MigrateListValue(v).0)
  {
    if Truthy(v) && v.Arr? {
      MigrateEntriesIdempotent(v.items);
    }
  }

  /** Every legacy field whose layer field is unset has been promoted. */
  predicate Layered(d: Dict)
  {
    Promotes(d, "raw", "base_image") == 0 && Promotes(d, "edited", "overlay") == 0
    && Promotes(d, "after_raw", "after_base") == 0 && Promotes(d, "after_edited", "after_overlay") == 0
  }

  /** After the layer promotion no legacy field is left to promote. */
  lemma LayersLayered(rec: Dict)
    ensures Layered(MigrateLayers(rec))
  {
    var a := Promote(rec, "raw", "base_image");
    var b := Promote(a, "edited", "overlay");
    var c := Promote(b, "after_raw", "after_base");
    PromoteFacts(rec, "raw", "base_image");
    PromoteFacts(a, "edited", "overlay");
    PromoteFacts(b, "after_raw", "after_base");
    PromoteFacts(c, "after_edited", "after_overlay");
    forall k | k !in {"base_image", "overlay", "after_base", "after_overlay"}
      ensures (k in MigrateLayers(rec) <==> k in rec) && (k in rec ==> MigrateLayers(rec)[k] == rec[k])
    {
      PromoteKeeps(rec, "raw", "base_image", k);
      PromoteKeeps(a, "edited", "overlay", k);
      PromoteKeeps(b, "after_raw", "after_base", k);
      PromoteKeeps(c, "after_edited", "after_overlay", k);
    }
  }

  /** Promotion changes the target field alone. */
  lemma PromoteKeeps(d: Dict, src: string, dst: string, k: string)
    requires k != dst
    ensures var r := Promote(d, src, dst);
      (k in r <==> k in d) && (k in d ==> r[k] == d[k])
  {
  }

  /**
   * After the layer promotion every set legacy field has its layer field
   * set, a layer field that was set keeps its value, and nothing else changes.
   */
  lemma MigrateLayersFacts(rec: Dict)
    ensures var d := MigrateLayers(rec);
      (Truthy(Get(rec, "raw", Null)) ==> Truthy(Get(d, "base_image", Null)))
      && (Truthy(Get(rec, "edited", Null)) ==> Truthy(Get(d, "overlay", Null)))
      && (Truthy(Get(rec, "after_raw", Null)) ==> Truthy(Get(d, "after_base", Null)))
      && (Truthy(Get(rec, "after_edited", Null)) ==> Truthy(Get(d, "after_overlay", Null)))
      && (Truthy(Get(rec, "base_image", Null)) ==> Get(d, "base_image", Null) == Get(rec, "base_image", Null))
      && (Truthy(Get(rec, "overlay", Null)) ==> Get(d, "overlay", Null) == Get(rec, "overlay", Null))
      && (forall k :: k !in {"base_image", "overlay", "after_base", "after_overlay"} ==>
            (k in d <==> k in rec) && (k in rec ==> d[k] == rec[k]))
  {
    var a := Promote(rec, "raw", "base_image");
    var b := Promote(a, "edited", "overlay");
    var c := Promote(b, "after_raw", "after_base");
    PromoteFacts(rec, "raw", "base_image");
    PromoteFacts(a, "edited", "overlay");
    PromoteFacts(b, "after_raw", "after_base");
    PromoteFacts(c, "after_edited", "after_overlay");
    forall k | k !in {"base_image", "overlay", "after_base", "after_overlay"}
      ensures (k in MigrateLayers(rec) <==> k in rec) && (k in rec ==> MigrateLayers(rec)[k] == rec[k])
    {
      PromoteKeeps(rec, "raw", "base_image", k);
      PromoteKeeps(a, "edited", "overlay", k);
      PromoteKeeps(b, "after_raw", "after_base", k);
      PromoteKeeps(c, "after_edited", "after_overlay", k);
    }
  }

  /** A layered record is left as it is by the layer promotion. */
  lemma LayeredIdle(d: Dict)
    requires Layered(d)
    ensures MigrateLayers(d) == d
  {
  }

  /** The list migration touches the three lists only. */
  lemma MigrateListsOther(d: Dict, k: string)
    requires k !in {"ctx_list", "add_fehler_list", "add_after_list"}
    ensures var r := MigrateLists(d).0;
      (k in r <==> k in d) && (k in d ==> r[k] == d[k])
  {
  }

  /** After the list migration that did not raise, each list is settled. */
  lemma MigrateListsSettle(d: Dict)
    requires !MigrateLists(d).1
    ensures var r := MigrateLists(d).0;
      ListSettled(Get(r, "ctx_list", Arr([]))) && ListSettled(Get(r, "add_fehler_list", Arr([])))
      && ListSettled(Get(r, "add_after_list", Arr([])))
  {
    var l1 := MigrateListAt(d, "ctx_list");
    var l2 := MigrateListAt(l1.0, "add_fehler_list");
    var l3 := MigrateListAt(l2.0, "add_after_list");
    MigrateListValueSettles(Get(d, "ctx_list", Arr([])));
    MigrateListValueSettles(Get(l1.0, "add_fehler_list", Arr([])));
    MigrateListValueSettles(Get(l2.0, "add_after_list", Arr([])));
    assert Get(l3.0, "ctx_list", Arr([])) == Get(l1.0, "ctx_list", Arr([]));
    assert Get(l3.0, "add_fehler_list", Arr([])) == Get(l2.0, "add_fehler_list", Arr([]));
  }

  /** A settled list is left as it is in place. */
  lemma SettledListIdle(d: Dict, key: string)
    requires ListSettled(Get(d, key, Arr([])))
    ensures MigrateListAt(d, key) == (d, false)
  {
    if key in d {
      UpdateSame(d, key);
    }
  }

  /** A record whose lists are settled is left as it is by the list migration. */
  lemma SettledListsIdle(d: Dict)
    requires ListSettled(Get(d, "ctx_list", Arr([]))) && ListSettled(Get(d, "add_fehler_list", Arr([])))
    requires ListSettled(Get(d, "add_after_list", Arr([])))
    ensures MigrateLists(d) == (d, false)
  {
    SettledListIdle(d, "ctx_list");
    SettledListIdle(d, "add_fehler_list");
    SettledListIdle(d, "add_after_list");
  }

  /**
   * Migrating a record that migrated without error again changes nothing
   * and counts nothing.
   */
  lemma MigrateRecordIdempotent(rec: Dict)
    requires !MigrateRecord(rec).2
    ensures var m := MigrateRecord(rec).0;
      MigrateRecord(m) == (m, 0, false)
  {
    var d := MigrateLayers(rec);
    var m := MigrateLists(d).0;
    LayersLayered(rec);
    MigrateListsSettle(d);
    forall k | k !in {"ctx_list", "add_fehler_list", "add_after_list"}
      ensures (k in m <==> k in d) && (k in d ==> m[k] == d[k])
    {
      MigrateListsOther(d, k);
    }
    LayeredKept(d, m);
    MigratedIdle(m);
  }

  /** A layered record with settled lists is a fixed point of the record migration. */
  lemma MigratedIdle(m: Dict)
    requires Layered(m)
    requires ListSettled(Get(m, "ctx_list", Arr([]))) && ListSettled(Get(m, "add_fehler_list", Arr([])))
    requires ListSettled(Get(m, "add_after_list", Arr([])))
    ensures MigrateRecord(m) == (m, 0, false)
  {
    LayeredIdle(m);
    SettledListsIdle(m);
  }

  /** Whether a record is layered depends on its layer and legacy fields only. */
  lemma LayeredKept(d: Dict, m: Dict)
    requires Layered(d)
    requires forall k :: k !in {"ctx_list", "add_fehler_list", "add_after_list"} ==>
               (k in m <==> k in d) && (k in d ==> m[k] == d[k])
    ensures Layered(m)
  {
    assert Get(m, "raw", Null) == Get(d, "raw", Null);
    assert Get(m, "base_image", Null) == Get(d, "base_image", Null);
    assert Get(m, "edited", Null) == Get(d, "edited", Null);
    assert Get(m, "overlay", Null) == Get(d, "overlay", Null);
    assert Get(m, "after_raw", Null) == Get(d, "after_raw", Null);
    assert Get(m, "after_base", Null) == Get(d, "after_base", Null);
    assert Get(m, "after_edited", Null) == Get(d, "after_edited", Null);
    assert Get(m, "after_overlay", Null) == Get(d, "after_overlay", Null);
  }

  // ------------------------------------------------------------ the index

  class ProjectIndex {
    /** `index["images"]`. */
    var images: seq<Dict>
    /** `index["counters"]`, `None` while the key is absent. */
    var counters: Option<Json>
    /** `index["project"]`, `None` while the key is absent. */
    var project: Option<Json>

    constructor (images: seq<Dict>, counters: Option<Json>, project: Option<Json>)
      ensures this.images == images && this.counters == counters && this.project == project
    {
      this.images := images;
      this.counters := counters;
      this.project := project;
    }

    /**
     * `_increment_image_counter`: the image counter goes up by one and the
     * new value is returned zero-padded to three digits; `None` where the
     * counters block or the counter is not usable (nothing changes then).
     */
    method IncrementImageCounter() returns (r: Option<string>)
      modifies this
      ensures images == old(images) && project == old(project)
      ensures r.None? <==> CounterValue(old(counters)).None?
      ensures r.None? ==> counters == old(counters)
      ensures r.Some? ==> counters == Bumped(old(counters)) && r.value == Format03(CounterValue(old(counters)).value + 1)
    {
      var current := CounterValue(counters);
      if current.None? {
        return None;
      }
      var fields := CounterFields(counters);
      counters := Some(Obj(fields["images" := Int(current.value + 1)]));
      r := Some(Format03(current.value + 1));
    }

    /** `add_image_record`: the new record, with every field at its initial value, goes to the end of the list. */
    method AddImageRecord(rawPath: string, number: string) returns (rec: Dict)
      modifies this
      ensures rec == NewRecord(rawPath, number)
      ensures images == old(images) + [rec] && counters == old(counters) && project == old(project)
    {
      rec := NewRecord(rawPath, number);
      AppendImage(rec);
    }

    /**
     * `clone_image_to_audit`: the counter is raised first, then the copy
     * numbered with it goes to the end of the list; the other records, the
     * source among them, are untouched. `None` where the source raises.
     */
    method CloneImageToAudit(src: Dict, targetAuditId: string) returns (r: Option<Dict>)
      modifies this
      ensures project == old(project)
      ensures CounterValue(old(counters)).None? ==> r.None? && images == old(images) && counters == old(counters)
      ensures CounterValue(old(counters)).Some? ==>
                r == ClonedRecord(src, Format03(CounterValue(old(counters)).value + 1), targetAuditId)
      ensures CounterValue(old(counters)).Some? ==> counters == Bumped(old(counters))
      ensures r.Some? ==> images == old(images) + [r.value]
      ensures r.None? ==> images == old(images)
    {
      var nr := IncrementImageCounter();
      if nr.None? {
        return None;
      }
      r := CloneRecord(src, nr.value, targetAuditId);
      if r.Some? {
        AppendImage(r.value);
      }
    }

    /** `index.setdefault("images", []).append(rec)`. */
    method AppendImage(rec: Dict)
      modifies this
      ensures images == old(images) + [rec] && counters == old(counters) && project == old(project)
    {
      images := images + [rec];
    }

    /**
     * The loop of `save_video_file` and `link_existing_video_to_record`:
     * the first record of the audit with the number has the video reference
     * linked, and the loop stops there. `false` where linking raises.
     */
    method LinkVideoToRecord(auditId: string, nr: string, storeRef: string) returns (ok: bool)
      modifies this
      ensures counters == old(counters) && project == old(project)
      ensures var at := FirstWhere(old(images), (rec: Dict) => IsRecord(rec, auditId, nr));
        (at.None? ==> ok && images == old(images))
        && (at.Some? && LinkVideo(old(images)[at.value], storeRef).None? ==> !ok && images == old(images))
        && (at.Some? && LinkVideo(old(images)[at.value], storeRef).Some? ==>
              ok && images == old(images)[at.value := LinkVideo(old(images)[at.value], storeRef).value])
    {
      ghost var at := FirstWhere(images, (rec: Dict) => IsRecord(rec, auditId, nr));
      var i := 0;
      while i < |images|
        invariant 0 <= i <= |images| && images == old(images)
        invariant forall j :: 0 <= j < i ==> !IsRecord(images[j], auditId, nr)
      {
        if IsRecord(images[i], auditId, nr) {
          assert at == Some(i);
          var linked := LinkVideo(images[i], storeRef);
          if linked.None? {
            return false;
          }
          images := images[i := linked.value];
          return true;
        }
        i := i + 1;
      }
      ok := true;
    }

    /**
     * `save_video_file`: the video is stored through the media store, and
     * when a record number is given (and not empty) the stored reference
     * `base_videos/<file name>` is linked to the first record of the audit
     * with that number. `None` where storing or linking raises, which the
     * source catches; a stored file stays. `ref` is the registered reference,
     * `None` when storing raised.
     */
    method SaveVideoFile(store: Store, data: Bytes, filename: string, auditId: string, recordNr: Option<string>,
                         uid: string, listing: seq<string>) returns (absPath: Option<string>, ghost ref: Option<string>)
      requires store.Valid() && IsHexId(uid)
      modifies this, store
      ensures store.Valid() && counters == old(counters) && project == old(project)
      ensures store.images == old(store.images)
      ensures ref.None? ==> absPath.None? && images == old(images) && store.files == old(store.files)
                            && store.NewVideoPath(uid, NameOr(Some(filename), "video.mp4")) in store.failing
      ensures store.NewVideoPath(uid, NameOr(Some(filename), "video.mp4")) !in store.failing ==> ref.Some?
      ensures ref.Some? ==>
        store.regExists && store.codec.sha256(data) in store.videos && store.videos[store.codec.sha256(data)] == ref.value
        && store.Resolve(ref.value, None).Some? && store.Resolve(ref.value, None).value in store.files
        && (absPath.Some? ==> absPath == store.Resolve(ref.value, None))
        && (recordNr.None? || recordNr.value == "" ==> images == old(images) && absPath.Some?)
        && (recordNr.Some? && recordNr.value != "" ==>
              var storeRef := VideoStoreRef(ref.value);
              var at := FirstWhere(old(images), (rec: Dict) => IsRecord(rec, auditId, recordNr.value));
              (at.None? ==> absPath.Some? && images == old(images))
              && (at.Some? && LinkVideo(old(images)[at.value], storeRef).None? ==> absPath.None? && images == old(images))
              && (at.Some? && LinkVideo(old(images)[at.value], storeRef).Some? ==>
                    absPath.Some? && images == old(images)[at.value := LinkVideo(old(images)[at.value], storeRef).value]))
    {
      var raised, vidFilename, abs;
      ghost var stored;
      raised, vidFilename, abs, stored := store.SaveBaseVideo(data, filename, uid, listing);
      if raised {
        return None, None;
      }
      ref := Some(stored);
      var storeRef := "base_videos/" + vidFilename;
      assert storeRef == VideoStoreRef(stored);
      if recordNr.Some? && recordNr.value != "" {
        var ok := LinkVideoToRecord(auditId, recordNr.value, storeRef);
        if !ok {
          return None, ref;
        }
      }
      absPath := Some(abs);
    }

    /**
     * `migrate_to_layered_architecture`: every record has its layer fields
     * promoted from the legacy ones; the counter counts promoted base
     * fields; a record that raises adds an error and the loop goes on.
     */
    method MigrateToLayered() returns (migrated: nat, errors: seq<string>)
      modifies this
      ensures counters == old(counters) && project == old(project)
      ensures (images, migrated, errors) == MigrateAll(old(images))
    {
      migrated := 0;
      errors := [];
      ghost var src := images;
      ghost var done: seq<Dict> := [];
      var i := 0;
      while i < |images|
        invariant 0 <= i <= |src| == |images| && src == old(images)
        invariant counters == old(counters) && project == old(project)
        invariant images == done + src[i..]
        invariant MigratedPrefix(src, i, done, migrated, errors)
      {
        assert images[i] == src[i];
        var m := MigrateRecord(images[i]);
        ghost var before, migratedBefore, errorsBefore := images, migrated, errors;
        images := images[i := m.0];
        migrated := migrated + m.1;
        if m.2 {
          errors := errors + [MigrationError(m.0)];
        }
        MigrateStep(src, i, done, before, m, migratedBefore, errorsBefore, errors);
        done := done + [m.0];
        i := i + 1;
      }
      assert src[..i] == src && images == done;
    }
  }

  /** Migrating a second time, after a migration without errors, changes nothing and counts nothing. */
  lemma {:induction false} MigrateAllIdempotent(images: seq<Dict>)
    requires MigrateAll(images).2 == []
    ensures MigrateAll(MigrateAll(images).0) == (MigrateAll(images).0, 0, [])
  {
    if images != [] {
      var init := images[..|images| - 1];
      var last := images[|images| - 1];
      var prev := MigrateAll(init);
      var out := MigrateAll(images).0;
      MigrateAllIdempotent(init);
      MigrateRecordIdempotent(last);
      assert out[..|out| - 1] == prev.0;
    }
  }
}
