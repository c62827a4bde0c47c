/**
 * Shared-media detection over the records of the project index and the
 * deletion that respects it. A record is the dict of one image entry of
 * `index["images"]`; a record is identified by its position in that list.
 */
module MediaSharing {
  import opened Wrappers
  import opened Text
  import opened Json
  import opened MediaRefs
  import opened MediaStore
  import opened Seqs

  /** The record fields that hold a media reference, in the order they are scanned. */
  const MediaFields: seq<string> := ["base_image", "after_base", "raw", "edited", "after_raw", "after_edited"]

  /** The fields of a list entry that hold a media reference. */
  const EntryFields: seq<string> := ["base", "raw", "edited"]

  /** The values of `fields` in `d`, `None` for a missing key. */
  function FieldValues(d: Dict, fields: seq<string>): (r: seq<Json>)
    ensures |r| == |fields|
    ensures forall i :: 0 <= i < |fields| ==> r[i] == Get(d, fields[i], Null)
  {
    if fields == [] then [] else [Get(d, fields[0], Null)] + FieldValues(d, fields[1..])
  }

  /** The reference slots of the entries of one of the record's lists, entry by entry. */
  function EntrySlots(entries: seq<Json>): seq<Json>
  {
    if entries == [] then []
    else (if entries[0].Obj? then FieldValues(entries[0].fields, EntryFields) else []) + EntrySlots(entries[1..])
  }

  /**
   * Every value `is_media_shared` looks at in one record, in its order: the
   * six media fields, the three fields of each entry of `ctx_list`,
   * `add_fehler_list` and `add_after_list`, then the items of `videos`.
   */
  function RecordSlots(rec: Dict): seq<Json>
  {
    FieldValues(rec, MediaFields)
    + EntrySlots(ListOr(Get(rec, "ctx_list", Arr([]))))
    + EntrySlots(ListOr(Get(rec, "add_fehler_list", Arr([]))))
    + EntrySlots(ListOr(Get(rec, "add_after_list", Arr([]))))
    + ListOr(Get(rec, "videos", Arr([])))
  }

  /** A reference with its backslashes turned into '/'. */
  function Normalized(ref: string): string
  {
    Replace(ref, "\\", "/")
  }

  /** A slot holds the reference: a non-empty string equal to it once slashes are normalised. */
  predicate Matches(v: Json, norm: string)
  {
    v.Str? && v.s != "" && Normalized(v.s) == norm
  }

  /** One per matching slot. */
  function MatchFlags(slots: seq<Json>, norm: string): (r: seq<nat>)
    ensures |r| == |slots|
    ensures forall k :: 0 <= k < |slots| ==> r[k] == if Matches(slots[k], norm) then 1 else 0
  {
    seq(|slots|, k requires 0 <= k < |slots| => if Matches(slots[k], norm) then 1 else 0)
  }

  /** The number of slots of a record that hold the reference. */
  function MatchCount(rec: Dict, norm: string): nat
  {
    Sum(MatchFlags(RecordSlots(rec), norm))
  }

  /** The use count of each record. */
  function RecordCounts(images: seq<Dict>, norm: string): (r: seq<nat>)
    ensures |r| == |images|
    ensures forall i :: 0 <= i < |images| ==> r[i] == MatchCount(images[i], norm)
  {
    seq(|images|, i requires 0 <= i < |images| => MatchCount(images[i], norm))
  }

  /** The field-level use count over a list of records. */
  function UseCount(images: seq<Dict>, norm: string): nat
  {
    Sum(RecordCounts(images, norm))
  }

  /**
   * What `is_media_shared` decides. Never for an empty or overlay
   * reference. With a record to exclude: some OTHER record holds the
   * reference. Without: the reference fills at least two slots, which may
   * lie in the same record.
   */
  predicate Shared(images: seq<Dict>, ref: string, exclude: Option<nat>)
  {
    ref != "" && !IsOverlayRef(ref) && SharedBy(RecordCounts(images, Normalized(ref)), exclude)
  }

  /** The decision on the per-record use counts. */
  predicate SharedBy(counts: seq<nat>, exclude: Option<nat>)
  {
    if exclude.Some? then exists p :: 0 <= p < |counts| && p != exclude.value && counts[p] > 0
    else Sum(counts) >= 2
  }

  /**
   * Without a record to exclude, one record holding the reference in both
   * `base_image` and `raw` already makes it shared.
   */
  lemma OneRecordTwoFields(rec: Dict, ref: string)
    requires ref != "" && !IsOverlayRef(ref) && Normalized(ref) == ref
    requires "base_image" in rec && rec["base_image"] == Str(ref) && "raw" in rec && rec["raw"] == Str(ref)
    ensures Shared([rec], ref, None)
  {
    var slots := RecordSlots(rec);
    var f := FieldValues(rec, MediaFields);
    assert slots[0] == f[0] == Str(ref);
    assert slots[2] == f[2] == Str(ref);
    var flags := MatchFlags(slots, ref);
    assert flags[0] == 1 && flags[2] == 1;
    SumPrefix(flags[..2], 0);
    assert flags[..2][..0] == [];
    SumPrefix(flags, 2);
    var counts := RecordCounts([rec], ref);
    assert counts == [MatchCount(rec, ref)];
    assert counts[..0] == [];
    assert Sum(counts) == MatchCount(rec, ref);
  }

  /**
   * The slot loop of `is_media_shared` over one record: each matching slot
   * raises the use count, and the scan stops with `hit` as soon as the
   * count is positive while a record is excluded, or above one otherwise.
   */
  method CountSlots(slots: seq<Json>, norm: string, before: nat, excluding: bool) returns (useCount: nat, hit: bool)
    requires before <= 1 && (excluding ==> before == 0)
    ensures hit <==> if excluding then Sum(MatchFlags(slots, norm)) > 0 else before + Sum(MatchFlags(slots, norm)) >= 2
    ensures !hit ==> useCount == before + Sum(MatchFlags(slots, norm))
  {
    ghost var flags := MatchFlags(slots, norm);
    useCount := before;
    var j := 0;
    while j < |slots|
      invariant 0 <= j <= |slots|
      invariant useCount == before + Sum(flags[..j]) && useCount <= 1
      invariant excluding ==> useCount == 0
    {
      SumSnoc(flags, j);
      if Matches(slots[j], norm) {
        useCount := useCount + 1;
        if useCount > 0 && excluding {
          SumPrefix(flags, j);
          return useCount, true;
        }
        if useCount > 1 {
          SumPrefix(flags, j);
          return useCount, true;
        }
      }
      j := j + 1;
    }
    assert flags[..|slots|] == flags;
    hit := false;
  }

  /**
   * What the record loop of `is_media_shared` knows after the first `i`
   * records: without exclusion the running count, at most one; with it, no
   * use at all outside the excluded record.
   */
  predicate CountedUpTo(counts: seq<nat>, i: nat, exclude: Option<nat>, useCount: nat)
  {
    i <= |counts|
    && (exclude.None? ==> useCount == Sum(counts[..i]) && useCount <= 1)
    && (exclude.Some? ==> useCount == 0 && forall p :: 0 <= p < i && p != exclude.value ==> counts[p] == 0)
  }

  /** Skipping the excluded record keeps the loop state. */
  lemma CountedSkip(counts: seq<nat>, i: nat, exclude: Option<nat>, useCount: nat)
    requires i < |counts| && exclude == Some(i) && CountedUpTo(counts, i, exclude, useCount)
    ensures CountedUpTo(counts, i + 1, exclude, useCount)
  {
  }

  /**
   * Counting record `i`: a hit decides "shared"; otherwise the count grows
   * by the record's uses.
   */
  lemma CountedStep(counts: seq<nat>, i: nat, exclude: Option<nat>, before: nat, after: nat, hit: bool)
    requires i < |counts| && CountedUpTo(counts, i, exclude, before)
    requires exclude.Some? ==> exclude.value != i
    requires hit <==> if exclude.Some? then counts[i] > 0 else before + counts[i] >= 2
    requires !hit ==> after == before + counts[i]
    ensures hit ==> SharedBy(counts, exclude)
    ensures !hit ==> CountedUpTo(counts, i + 1, exclude, after)
  {
    if exclude.None? {
      SumSnoc(counts, i);
      if hit {
        SumPrefix(counts, i);
      }
    }
  }

  /** Having counted every record without a hit means "not shared". */
  lemma CountedAll(counts: seq<nat>, exclude: Option<nat>, useCount: nat)
    requires CountedUpTo(counts, |counts|, exclude, useCount)
    ensures !SharedBy(counts, exclude)
  {
    assert counts[..|counts|] == counts;
  }

  /** The slot loops of `is_media_shared` over one record. */
  method CountRecord(rec: Dict, norm: string, before: nat, excluding: bool) returns (useCount: nat, hit: bool)
    requires before <= 1 && (excluding ==> before == 0)
    ensures hit <==> if excluding then MatchCount(rec, norm) > 0 else before + MatchCount(rec, norm) >= 2
    ensures !hit ==> useCount == before + MatchCount(rec, norm)
  {
    useCount, hit := CountSlots(RecordSlots(rec), norm, before, excluding);
  }

  /** `is_media_shared`: overlays and empty references are never shared; otherwise the record loop decides. */
  method IsMediaShared(images: seq<Dict>, ref: string, exclude: Option<nat>) returns (shared: bool)
    ensures shared == Shared(images, ref, exclude)
  {
    if ref == "" || IsOverlayRef(ref) {
      return false;
    }
    shared := CountUses(images, Normalized(ref), exclude);
  }

  /** The record loop of `is_media_shared`, with the excluded record skipped by position. */
  method CountUses(images: seq<Dict>, norm: string, exclude: Option<nat>) returns (shared: bool)
    ensures shared == SharedBy(RecordCounts(images, norm), exclude)
  {
    ghost var counts := RecordCounts(images, norm);
    var useCount := 0;
    var i := 0;
    while i < |images|
      invariant 0 <= i <= |images| && CountedUpTo(counts, i, exclude, useCount)
    {
      if exclude.Some? && i == exclude.value {
        CountedSkip(counts, i, exclude, useCount);
        i := i + 1;
        continue;
      }
      var hit;
      ghost var before := useCount;
      useCount, hit := CountRecord(images[i], norm, useCount, exclude.Some?);
      CountedStep(counts, i, exclude, before, useCount, hit);
      if hit {
        return true;
      }
      i := i + 1;
    }
    CountedAll(counts, exclude, useCount);
    return false;
  }

  /**
   * `safe_delete_global_media`: overlays are always deleted, other media
   * only when no other record (or, without a current record, no second
   * slot) still uses them. A removal the file system refuses leaves the
   * file and gives `false`.
   */
  method SafeDeleteGlobalMedia(store: Store, images: seq<Dict>, ref: string, current: Option<nat>) returns (ok: bool)
    requires store.Valid()
    modifies store
    ensures store.Valid() && store.images == old(store.images) && store.videos == old(store.videos)
    ensures ref == "" || Shared(images, ref, current) ==> !ok && unchanged(store)
    ensures ref != "" && (IsOverlayRef(ref) || !Shared(images, ref, current)) ==>
              (ok <==> old(store.Resolve(ref, None)).Some? && old(store.Resolve(ref, None)).value !in store.failing)
              && (ok ==> store.files == old(store.files) - {old(store.Resolve(ref, None)).value})
              && (!ok ==> store.files == old(store.files))
  {
    if ref == "" {
      return false;
    }
    if IsOverlayRef(ref) {
      ok := store.DeleteGlobalMedia(ref);
      return;
    }
    var shared := IsMediaShared(images, ref, current);
    if shared {
      return false;
    }
    ok := store.DeleteGlobalMedia(ref);
  }
}
