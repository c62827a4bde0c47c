/**
 * The data side of the PDF export: which records are exported, the BI
 * counts of chapter 1, the area and system texts of the defect list, the
 * chapter selection and the status, RQM and QZ tallies. Drawing is not
 * modelled.
 */
module Export {
  import opened Wrappers
  import opened Text
  import opened Json
  import opened Seqs
  import opened Options
  import opened Records

  // ------------------------------------------------------------ selection

  /** The modes that export a single audit. */
  const ReportModes: seq<string> := ["Audit-Report", "Audit-Report-mit-Nacharbeit"]

  /**
   * `{a["audit_id"]: a for a in audits}`: a later audit with the same id
   * replaces an earlier one. `None` where an audit has no id (`KeyError`)
   * or an unhashable one (`TypeError`).
   */
  function AuditsMap(audits: seq<Dict>): (r: Option<map<Json, Dict>>)
    ensures r.Some? <==> forall i :: 0 <= i < |audits| ==> "audit_id" in audits[i] && Hashable(audits[i]["audit_id"])
    ensures r.Some? ==> forall i :: 0 <= i < |audits| ==> audits[i]["audit_id"] in r.value
    ensures r.Some? ==> forall id :: id in r.value ==> "audit_id" in r.value[id] && r.value[id]["audit_id"] == id
    ensures r.Some? && audits != [] ==> r.value[audits[|audits| - 1]["audit_id"]] == audits[|audits| - 1]
  {
    if audits == [] then Some(map[])
    else
      var init, a := audits[..|audits| - 1], audits[|audits| - 1];
      assert forall i :: 0 <= i < |init| ==> init[i] == audits[i];
      var m := AuditsMap(init);
      if m.None? || "audit_id" !in a || !Hashable(a["audit_id"]) then None
      else Some(m.value[a["audit_id"] := a])
  }

  /** `audits_map.get(r.get("audit_id"), {}).get("scope")`. */
  function ScopeOf(audits: map<Json, Dict>, rec: Dict): Json
  {
    var id := Get(rec, "audit_id", Null);
    if id in audits then Get(audits[id], "scope", Null) else Null
  }

  /** `audit_id` is a non-empty text (the `if audit_id` of the report modes). */
  predicate GivenAudit(auditId: Option<string>)
  {
    auditId.Some? && auditId.value != ""
  }

  /**
   * `select_images`: the records of the index, narrowed by the scope filter,
   * then by the audit list or, without one, by the single audit of the
   * report modes. An empty `scopeFilter` or `auditIds` stands for an absent
   * or empty list. `None` where the source raises: a bad audits list, or a
   * record whose `audit_id` is unhashable when a list lookup needs it.
   */
  function SelectImages(images: seq<Dict>, audits: seq<Dict>, mode: string, scopeFilter: seq<string>,
                        auditId: Option<string>, auditIds: seq<string>): (r: Option<seq<Dict>>)
    ensures r.None? <==> (AuditsMap(audits).None? ||
      ((scopeFilter != [] || auditIds != []) && exists i :: 0 <= i < |images| && !Hashable(Get(images[i], "audit_id", Null))))
  {
    var m := AuditsMap(audits);
    if m.None? then None
    else if (scopeFilter != [] || auditIds != []) &&
            exists i :: 0 <= i < |images| && !Hashable(Get(images[i], "audit_id", Null)) then None
    else
      var audited := m.value;
      var scoped := if scopeFilter != [] then Filter(images, rec => InOptions(ScopeOf(audited, rec), scopeFilter)) else images;
      if auditIds != [] then Some(Filter(scoped, rec => InOptions(Get(rec, "audit_id", Null), auditIds)))
      else if mode in ReportModes then
        Some(if GivenAudit(auditId) then Filter(scoped, rec => Get(rec, "audit_id", Null) == Str(auditId.value)) else [])
      else Some(scoped)
  }

  /** The audit condition of the export, on its own: the audit list wins over the mode. */
  predicate AuditWanted(rec: Dict, mode: string, auditId: Option<string>, auditIds: seq<string>)
  {
    if auditIds != [] then InOptions(Get(rec, "audit_id", Null), auditIds)
    else if mode in ReportModes then GivenAudit(auditId) && Get(rec, "audit_id", Null) == Str(auditId.value)
    else true
  }

  /** The whole selection condition on one record: its audit's scope, then its audit. */
  predicate Wanted(audits: map<Json, Dict>, rec: Dict, mode: string, scopeFilter: seq<string>,
                   auditId: Option<string>, auditIds: seq<string>)
  {
    (scopeFilter == [] || InOptions(ScopeOf(audits, rec), scopeFilter)) && AuditWanted(rec, mode, auditId, auditIds)
  }

  /**
   * The selection is one order-preserving filter of the index's records by
   * `Wanted`: every selected record has its audit's scope in the filter and
   * satisfies the audit condition, and every record that does is selected.
   */
  lemma SelectImagesIsFilter(images: seq<Dict>, audits: seq<Dict>, mode: string, scopeFilter: seq<string>,
                             auditId: Option<string>, auditIds: seq<string>)
    requires SelectImages(images, audits, mode, scopeFilter, auditId, auditIds).Some?
    ensures var m := AuditsMap(audits).value;
      SelectImages(images, audits, mode, scopeFilter, auditId, auditIds).value ==
      Filter(images, rec => Wanted(m, rec, mode, scopeFilter, auditId, auditIds))
  {
    var m := AuditsMap(audits).value;
    var scope := rec => InOptions(ScopeOf(m, rec), scopeFilter);
    var aud := rec => AuditWanted(rec, mode, auditId, auditIds);
    var wanted := rec => Wanted(m, rec, mode, scopeFilter, auditId, auditIds);
    var scoped := if scopeFilter != [] then Filter(images, scope) else images;
    if scopeFilter != [] {
      FilterFilter(images, scope, aud, wanted);
    } else {
      FilterCongruent(images, aud, wanted);
    }
    if auditIds != [] {
      FilterCongruent(scoped, rec => InOptions(Get(rec, "audit_id", Null), auditIds), aud);
    } else if mode in ReportModes {
      if GivenAudit(auditId) {
        FilterCongruent(scoped, rec => Get(rec, "audit_id", Null) == Str(auditId.value), aud);
      } else {
        FilterNone(scoped, aud);
      }
    } else {
      FilterAll(scoped, aud);
    }
  }

  /** A filter that keeps nothing is empty. */
  lemma {:induction false} FilterNone<T>(s: seq<T>, p: T -> bool)
    requires forall k :: 0 <= k < |s| ==> !p(s[k])
    ensures Filter(s, p) == []
  {
    if s != [] {
      FilterNone(s[1..], p);
    }
  }

  /**
   * What the export promises of its selection: an order-preserving
   * sub-list of the index's records, inside the scope filter, inside the
   * audit list or, in a report mode without one, inside the single audit
   * (nothing at all when no audit is given).
   */
  lemma SelectionProperties(images: seq<Dict>, audits: seq<Dict>, mode: string, scopeFilter: seq<string>,
                            auditId: Option<string>, auditIds: seq<string>)
    requires SelectImages(images, audits, mode, scopeFilter, auditId, auditIds).Some?
    ensures var sel := SelectImages(images, audits, mode, scopeFilter, auditId, auditIds).value;
      var m := AuditsMap(audits).value;
      IsSubsequence(sel, images)
      && (scopeFilter != [] ==> forall rec :: rec in sel ==> ScopeOf(m, rec).Str? && ScopeOf(m, rec).s in scopeFilter)
      && (auditIds != [] ==> forall rec :: rec in sel ==> Get(rec, "audit_id", Null).Str? && Get(rec, "audit_id", Null).s in auditIds)
      && (auditIds == [] && mode in ReportModes && !GivenAudit(auditId) ==> sel == [])
      && (auditIds == [] && mode in ReportModes && GivenAudit(auditId) ==> forall rec :: rec in sel ==> Get(rec, "audit_id", Null) == Str(auditId.value))
      && (forall rec :: rec in images && Wanted(m, rec, mode, scopeFilter, auditId, auditIds) ==> rec in sel)
  {
    var m := AuditsMap(audits).value;
    SelectImagesIsFilter(images, audits, mode, scopeFilter, auditId, auditIds);
    FilterIsSubsequence(images, rec => Wanted(m, rec, mode, scopeFilter, auditId, auditIds));
  }

  /** `f"{rec.get('audit_id', '')}__{rec.get('nr', '')}"`, the key of a record in the image picker. */
  function ImageKey(rec: Dict): string
  {
    PyStr(Get(rec, "audit_id", Str(""))) + "__" + PyStr(Get(rec, "nr", Str("")))
  }

  /** The optional picker filter: an empty key list (absent or empty) keeps everything. */
  function SelectedOnly(images: seq<Dict>, keys: seq<string>): (r: seq<Dict>)
    ensures IsSubsequence(r, images)
    ensures keys == [] ==> r == images
    ensures keys != [] ==> forall rec :: rec in r <==> rec in images && ImageKey(rec) in keys
  {
    if keys == [] then
      FilterAll(images, rec => true);
      FilterIsSubsequence(images, rec => true);
      images
    else
      FilterIsSubsequence(images, rec => ImageKey(rec) in keys);
      Filter(images, rec => ImageKey(rec) in keys)
  }

  /**
   * The chapters to draw: all three without a list, else the listed
   * chapters among 1, 2 and 3, all three again when none of them is
   * listed. `None` where a listed value does not convert with `int()`.
   */
  function ChapterSet(chapters: Option<seq<Json>>): (r: Option<set<int>>)
    ensures r.None? <==> chapters.Some? && exists i :: 0 <= i < |chapters.value| && PyInt(chapters.value[i]).None?
    ensures r.Some? ==> r.value != {} && forall c :: c in r.value ==> 1 <= c <= 3
    ensures r.Some? && chapters.Some? && (exists i :: 0 <= i < |chapters.value| && 1 <= PyInt(chapters.value[i]).value <= 3) ==>
      forall c :: c in r.value <==> exists i :: 0 <= i < |chapters.value| && PyInt(chapters.value[i]) == Some(c) && 1 <= c <= 3
    ensures r.Some? && (chapters.None? || forall i :: 0 <= i < |chapters.value| ==> !(1 <= PyInt(chapters.value[i]).value <= 3)) ==>
      r.value == {1, 2, 3}
  {
    match chapters
    case None => Some({1, 2, 3})
    case Some(cs) =>
      if exists i :: 0 <= i < |cs| && PyInt(cs[i]).None? then None
      else
        var listed := set i | 0 <= i < |cs| && 1 <= PyInt(cs[i]).value <= 3 :: PyInt(cs[i]).value;
        assert forall i :: 0 <= i < |cs| && 1 <= PyInt(cs[i]).value <= 3 ==> PyInt(cs[i]).value in listed;
        if listed == {} then Some({1, 2, 3})
        else Some(listed)
  }

  // ------------------------------------------------------------ BI counts

  /** The category of an unrated finding. */
  const Unrated := "BI0-tbd."

  /**
   * The BI category of a value: blank (falsy or only whitespace) is
   * unrated, other text is itself; `None` where `.strip()` raises on a
   * truthy value that is not text.
   */
  function BiKey(v: Json): (r: Option<string>)
    ensures !Truthy(v) ==> r == Some(Unrated)
    ensures v.Str? ==> r.Some? && (r.value == Unrated <==> Strip(v.s) == "" || v.s == Unrated)
    ensures v.Str? && Strip(v.s) != "" ==> r == Some(v.s)
    ensures Truthy(v) && !v.Str? ==> r.None?
  {
    if !Truthy(v) then Some(Unrated)
    else if !v.Str? then None
    else if Strip(v.s) == "" then Some(Unrated)
    else Some(v.s)
  }

  /** The value the post-rework category reads: `BI_neu` once the rework is done, `BI_alt` before. */
  function PostSource(f: Dict): Json
  {
    if Truthy(Get(f, "Nacharbeit_done", Null)) then Get(f, "BI_neu", Null) else Get(f, "BI_alt", Null)
  }

  function PreKey(rec: Dict): Option<string>
  {
    var f := FehlerOf(rec);
    if f.None? then None else BiKey(Get(f.value, "BI_alt", Null))
  }

  function PostKey(rec: Dict): Option<string>
  {
    var f := FehlerOf(rec);
    if f.None? then None else BiKey(PostSource(f.value))
  }

  /** The record's categories can be read without an exception. */
  predicate BiReadable(rec: Dict)
  {
    PreKey(rec).Some? && PostKey(rec).Some?
  }

  predicate AllBiReadable(imgs: seq<Dict>)
  {
    forall i :: 0 <= i < |imgs| ==> BiReadable(imgs[i])
  }

  /** The pre-rework category of each record, in order. */
  function PreKeys(imgs: seq<Dict>): (keys: seq<string>)
    requires AllBiReadable(imgs)
    ensures |keys| == |imgs|
  {
    if imgs == [] then [] else PreKeys(imgs[..|imgs| - 1]) + [PreKey(imgs[|imgs| - 1]).value]
  }

  /** The post-rework category of each record, in order. */
  function PostKeys(imgs: seq<Dict>): (keys: seq<string>)
    requires AllBiReadable(imgs)
    ensures |keys| == |imgs|
  {
    if imgs == [] then [] else PostKeys(imgs[..|imgs| - 1]) + [PostKey(imgs[|imgs| - 1]).value]
  }

  /**
   * `bi_counts_of`: the pre-rework and post-rework BI category counts of
   * the records, `None` where reading a record raises.
   */
  method BiCountsOf(imgs: seq<Dict>) returns (r: Option<(map<string, nat>, map<string, nat>)>)
    ensures r.Some? <==> AllBiReadable(imgs)
    ensures r.Some? ==> r.value.0 == Tally(PreKeys(imgs)) && r.value.1 == Tally(PostKeys(imgs))
  {
    var pre: map<string, nat> := map[];
    var post: map<string, nat> := map[];
    var i := 0;
    while i < |imgs|
      invariant 0 <= i <= |imgs|
      invariant AllBiReadable(imgs[..i])
      invariant pre == Tally(PreKeys(imgs[..i])) && post == Tally(PostKeys(imgs[..i]))
    {
      var f := FehlerOf(imgs[i]);
      if f.None? {
        return None;
      }
      var preKey := BiKey(Get(f.value, "BI_alt", Null));
      if preKey.None? {
        return None;
      }
      assert PreKey(imgs[i]) == preKey;
      var postKey := BiKey(PostSource(f.value));
      if postKey.None? {
        return None;
      }
      assert PostKey(imgs[i]) == postKey;
      BiReadableSnoc(imgs, i);
      BiKeysSnoc(imgs, i);
      TallyAppend(PreKeys(imgs[..i]), preKey.value);
      TallyAppend(PostKeys(imgs[..i]), postKey.value);
      pre := Bump(pre, preKey.value);
      post := Bump(post, postKey.value);
      i := i + 1;
    }
    assert imgs[..i] == imgs;
    r := Some((pre, post));
  }

  /** One more readable record keeps the prefix readable. */
  lemma BiReadableSnoc(imgs: seq<Dict>, i: nat)
    requires i < |imgs| && AllBiReadable(imgs[..i]) && BiReadable(imgs[i])
    ensures AllBiReadable(imgs[..i + 1])
  {
    assert imgs[..i + 1][..i] == imgs[..i];
  }

  /** One more record adds its categories at the end of both key lists. */
  lemma BiKeysSnoc(imgs: seq<Dict>, i: nat)
    requires i < |imgs| && AllBiReadable(imgs[..i + 1])
    ensures PreKeys(imgs[..i + 1]) == PreKeys(imgs[..i]) + [PreKey(imgs[i]).value]
    ensures PostKeys(imgs[..i + 1]) == PostKeys(imgs[..i]) + [PostKey(imgs[i]).value]
  {
    assert imgs[..i + 1][..i] == imgs[..i];
  }

  /**
   * The counts of both tables add up to the number of records, summed over
   * the categories in the order they first appear (the dict's order).
   */
  lemma BiCountsSum(imgs: seq<Dict>)
    requires AllBiReadable(imgs)
    ensures SumOver(Tally(PreKeys(imgs)), Distinct(PreKeys(imgs))) == |imgs|
    ensures SumOver(Tally(PostKeys(imgs)), Distinct(PostKeys(imgs))) == |imgs|
    ensures forall k :: k in Tally(PreKeys(imgs)) ==> k in Distinct(PreKeys(imgs))
  {
    TallySum(PreKeys(imgs));
    TallySum(PostKeys(imgs));
  }

  /** Each category counts exactly the records in it. */
  lemma BiCountsCount(imgs: seq<Dict>, k: string)
    requires AllBiReadable(imgs)
    ensures k in PreKeys(imgs) ==> Tally(PreKeys(imgs))[k] == Occurrences(PreKeys(imgs), k)
    ensures k in PostKeys(imgs) ==> Tally(PostKeys(imgs))[k] == Occurrences(PostKeys(imgs), k)
  {
    if k in PreKeys(imgs) {
      TallyCounts(PreKeys(imgs), k);
    }
    if k in PostKeys(imgs) {
      TallyCounts(PostKeys(imgs), k);
    }
  }

  /**
   * The post-rework category follows `BI_neu` only once the rework is done;
   * before that both tables place the record alike.
   */
  lemma PostKeyRule(rec: Dict)
    requires BiReadable(rec)
    ensures var f := FehlerOf(rec).value;
      PostKey(rec) == BiKey(if Truthy(Get(f, "Nacharbeit_done", Null)) then Get(f, "BI_neu", Null) else Get(f, "BI_alt", Null))
    ensures !Truthy(Get(FehlerOf(rec).value, "Nacharbeit_done", Null)) ==> PostKey(rec) == PreKey(rec)
  {
  }

  // ------------------------------------------------------------ area and system texts

  /** The text shown when there is nothing to show. */
  const Dash := "—"

  /** `labels.get(key, key)`. */
  function Label(labels: map<string, string>, key: string): string
  {
    if key in labels then labels[key] else key
  }

  /** A multi-selection list the display can join: every truthy entry is text. */
  predicate TextEntries(items: seq<Json>)
  {
    forall i :: 0 <= i < |items| ==> !Truthy(items[i]) || items[i].Str?
  }

  /** The truthy entries of a multi-selection list, in order. */
  function TruthyTexts(items: seq<Json>): seq<string>
  {
    if items == [] then []
    else
      var x := items[|items| - 1];
      TruthyTexts(items[..|items| - 1]) + (if x.Str? && x.s != "" then [x.s] else [])
  }

  /** The truthy texts are exactly the non-empty text entries. */
  lemma {:induction false} TruthyTextsMembers(items: seq<Json>)
    ensures forall k :: k in TruthyTexts(items) ==> k != "" && Str(k) in items
    ensures forall i :: 0 <= i < |items| && items[i].Str? && items[i].s != "" ==> items[i].s in TruthyTexts(items)
  {
    if items != [] {
      var init, x := items[..|items| - 1], items[|items| - 1];
      assert items == init + [x];
      TruthyTextsMembers(init);
    }
  }

  /** The label of each key, in order. */
  function LabelsOf(labels: map<string, string>, keys: seq<string>): (r: seq<string>)
    ensures |r| == |keys| && forall i :: 0 <= i < |keys| ==> r[i] == Label(labels, keys[i])
  {
    if keys == [] then [] else LabelsOf(labels, keys[..|keys| - 1]) + [Label(labels, keys[|keys| - 1])]
  }

  /**
   * The display text of a multi-or-single field: the labels of the distinct
   * truthy entries of a non-empty multi list in first-occurrence order,
   * joined by ", "; otherwise the single value's label; the dash when there
   * is nothing. `None` where the source raises (a truthy entry that is not
   * text, an unhashable single value).
   */
  function Display(f: Dict, multiKey: string, singleKey: string, labels: map<string, string>): Option<string>
  {
    var multi := Get(f, multiKey, Null);
    if multi.Arr? && |multi.items| > 0 then
      if !TextEntries(multi.items) then None
      else
        var shown := LabelsOf(labels, Distinct(TruthyTexts(multi.items)));
        Some(if shown == [] then Dash else Join(shown, ", "))
    else
      var single := Get(f, singleKey, Str(""));
      if !Truthy(single) then Some(Dash)
      else if single.Str? then Some(Label(labels, single.s))
      else if Hashable(single) then Some(PyStr(single))
      else None
  }

  /**
   * The loop shared by `_get_area_display` and `_get_system_display`: walks
   * the multi list keeping a `seen` set and the labels in order.
   */
  method MultiDisplay(f: Dict, multiKey: string, singleKey: string, labels: map<string, string>)
    returns (r: Option<string>)
    ensures r == Display(f, multiKey, singleKey, labels)
  {
    var multi := Get(f, multiKey, Null);
    if !(multi.Arr? && |multi.items| > 0) {
      var single := Get(f, singleKey, Str(""));
      if !Truthy(single) {
        return Some(Dash);
      } else if single.Str? {
        return Some(Label(labels, single.s));
      } else if Hashable(single) {
        return Some(PyStr(single));
      }
      return None;
    }
    var items := multi.items;
    var seen: set<string> := {};
    var shown: seq<string> := [];
    var i := 0;
    while i < |items|
      invariant 0 <= i <= |items|
      invariant TextEntries(items[..i])
      invariant forall k :: k in seen <==> k in TruthyTexts(items[..i])
      invariant shown == LabelsOf(labels, Distinct(TruthyTexts(items[..i])))
    {
      var a := items[i];
      if !Truthy(a) {
        SkipFalsy(items, i);
        i := i + 1;
        continue;
      }
      if !a.Str? {
        NotTextEntries(items, i);
        return None;
      }
      TextSnoc(items, i);
      ShownStep(labels, TruthyTexts(items[..i]), a.s);
      if a.s !in seen {
        seen := seen + {a.s};
        shown := shown + [Label(labels, a.s)];
      }
      i := i + 1;
    }
    assert items[..i] == items;
    r := Some(if shown == [] then Dash else Join(shown, ", "));
  }

  lemma TruthyTextsSnoc(items: seq<Json>, i: nat)
    requires i < |items|
    ensures TruthyTexts(items[..i + 1]) ==
      TruthyTexts(items[..i]) + (if items[i].Str? && items[i].s != "" then [items[i].s] else [])
  {
    assert items[..i + 1][..i] == items[..i];
  }

  /** A falsy entry changes nothing. */
  lemma SkipFalsy(items: seq<Json>, i: nat)
    requires i < |items| && !Truthy(items[i]) && TextEntries(items[..i])
    ensures TextEntries(items[..i + 1]) && TruthyTexts(items[..i + 1]) == TruthyTexts(items[..i])
  {
    TruthyTextsSnoc(items, i);
    assert items[..i + 1] == items[..i] + [items[i]];
  }

  /** A text entry appends its key to the truthy texts. */
  lemma TextSnoc(items: seq<Json>, i: nat)
    requires i < |items| && items[i].Str? && items[i].s != "" && TextEntries(items[..i])
    ensures TextEntries(items[..i + 1])
    ensures TruthyTexts(items[..i + 1]) == TruthyTexts(items[..i]) + [items[i].s]
  {
    TruthyTextsSnoc(items, i);
    assert items[..i + 1] == items[..i] + [items[i]];
  }

  /** The labels shown grow by the new key's label exactly when the key is new. */
  lemma ShownStep(labels: map<string, string>, keys: seq<string>, k: string)
    ensures LabelsOf(labels, Distinct(keys + [k])) ==
      if k in keys then LabelsOf(labels, Distinct(keys)) else LabelsOf(labels, Distinct(keys)) + [Label(labels, k)]
  {
    DistinctSnoc(keys + [k]);
    assert (keys + [k])[..|keys|] == keys;
    if k !in keys {
      LabelsOfSnoc(labels, Distinct(keys), k);
    }
  }

  lemma NotTextEntries(items: seq<Json>, i: nat)
    requires i < |items| && Truthy(items[i]) && !items[i].Str?
    ensures !TextEntries(items)
  {
  }

  lemma LabelsOfSnoc(labels: map<string, string>, keys: seq<string>, k: string)
    ensures LabelsOf(labels, keys + [k]) == LabelsOf(labels, keys) + [Label(labels, k)]
  {
    assert (keys + [k])[..|keys|] == keys;
  }

  /** `_get_area_display`. */
  method AreaDisplay(f: Dict) returns (r: Option<string>)
    ensures r == Display(f, "vehicle_area_multi", "vehicle_area", VehicleAreaLabels)
  {
    r := MultiDisplay(f, "vehicle_area_multi", "vehicle_area", VehicleAreaLabels);
  }

  /** `_get_system_display`. */
  method SystemDisplay(f: Dict) returns (r: Option<string>)
    ensures r == Display(f, "system_domain_multi", "system_domain", SystemDomainLabels)
  {
    r := MultiDisplay(f, "system_domain_multi", "system_domain", SystemDomainLabels);
  }

  /**
   * A non-empty multi list shows each distinct truthy entry exactly once,
   * by its label and in first-occurrence order; the single value is used
   * only without such a list.
   */
  lemma DisplayShowsEachEntryOnce(f: Dict, multiKey: string, singleKey: string, labels: map<string, string>)
    requires var multi := Get(f, multiKey, Null); multi.Arr? && |multi.items| > 0 && TextEntries(multi.items)
    ensures var items := Get(f, multiKey, Null).items;
      var keys := Distinct(TruthyTexts(items));
      (forall i, j :: 0 <= i < j < |keys| ==> keys[i] != keys[j])
      && (forall i :: 0 <= i < |items| && Truthy(items[i]) ==> items[i].s in keys)
      && (forall k :: k in keys ==> Str(k) in items && k != "")
      && Display(f, multiKey, singleKey, labels) ==
           Some(if keys == [] then Dash else Join(LabelsOf(labels, keys), ", "))
  {
    TruthyTextsMembers(Get(f, multiKey, Null).items);
  }

  /** Every label of the two tables is non-empty. */
  lemma LabelsNonEmpty()
    ensures forall k :: k in VehicleAreaLabels ==> VehicleAreaLabels[k] != ""
    ensures forall k :: k in SystemDomainLabels ==> SystemDomainLabels[k] != ""
  {
  }

  /** The joined text starts with the first part, so it is never empty when that part is not. */
  lemma {:induction false} JoinNonEmpty(parts: seq<string>, sep: string)
    requires parts != [] && parts[0] != ""
    ensures Join(parts, sep) != ""
  {
    if |parts| > 1 {
      assert Join(parts, sep) == parts[0] + sep + Join(parts[1..], sep);
      assert |Join(parts, sep)| >= |parts[0]|;
    }
  }

  /** The area and system texts are never empty: "—" stands in for nothing. */
  lemma DisplayNonEmpty(f: Dict, multiKey: string, singleKey: string, labels: map<string, string>)
    requires forall k :: k in labels ==> labels[k] != ""
    requires Display(f, multiKey, singleKey, labels).Some?
    ensures Display(f, multiKey, singleKey, labels).value != ""
  {
    var multi := Get(f, multiKey, Null);
    if multi.Arr? && |multi.items| > 0 {
      var keys := Distinct(TruthyTexts(multi.items));
      if keys != [] {
        assert keys[0] in keys;
        TruthyTextsMembers(multi.items);
        JoinNonEmpty(LabelsOf(labels, keys), ", ");
      }
    } else {
      var single := Get(f, singleKey, Str(""));
      if Truthy(single) && !single.Str? && single.Int? {
        assert |NatToString(if single.i >= 0 then single.i else -single.i)| > 0;
      }
    }
  }

  // ------------------------------------------------------------ status, RQM and QZ tallies

  /** The QZ states the tally starts with. */
  const InitialQz: map<Json, nat> := map[Str("QZS") := 0, Str("QZF") := 0]

  /** `f.get("CaseStatus", "Open") == "Closed"`. */
  predicate Closed(f: Dict)
  {
    Get(f, "CaseStatus", Str("Open")) == Str("Closed")
  }

  /** `f.get("QZStatus", "QZS")`. */
  function QzKey(f: Dict): Json
  {
    Get(f, "QZStatus", Str("QZS"))
  }

  /** The record's finding can be read and its QZ state used as a dict key. */
  predicate StatusReadable(rec: Dict)
  {
    FehlerOf(rec).Some? && Hashable(QzKey(FehlerOf(rec).value))
  }

  predicate AllStatusReadable(imgs: seq<Dict>)
  {
    forall i :: 0 <= i < |imgs| ==> StatusReadable(imgs[i])
  }

  predicate RecClosed(rec: Dict)
  {
    FehlerOf(rec).Some? && Closed(FehlerOf(rec).value)
  }

  predicate RecOpen(rec: Dict)
  {
    !RecClosed(rec)
  }

  predicate RecRqm(rec: Dict)
  {
    FehlerOf(rec).Some? && Truthy(Get(FehlerOf(rec).value, "RQMRelevant", Null))
  }

  predicate RecNoRqm(rec: Dict)
  {
    !RecRqm(rec)
  }

  /** The QZ state of each record, in order. */
  function QzKeys(imgs: seq<Dict>): (keys: seq<Json>)
    requires AllStatusReadable(imgs)
    ensures |keys| == |imgs|
  {
    if imgs == [] then [] else QzKeys(imgs[..|imgs| - 1]) + [QzKey(FehlerOf(imgs[|imgs| - 1]).value)]
  }

  /** The three tallies of chapter 1. */
  datatype StatusCounts = StatusCounts(open: nat, closed: nat, rqmNo: nat, rqmYes: nat, qz: map<Json, nat>)

  /** One record counted into the three tallies. */
  function CountOne(c: StatusCounts, f: Dict): StatusCounts
    requires Hashable(QzKey(f))
  {
    StatusCounts(c.open + (if Closed(f) then 0 else 1), c.closed + (if Closed(f) then 1 else 0),
                 c.rqmNo + (if Truthy(Get(f, "RQMRelevant", Null)) then 0 else 1),
                 c.rqmYes + (if Truthy(Get(f, "RQMRelevant", Null)) then 1 else 0),
                 Bump(c.qz, QzKey(f)))
  }

  /** The tallies after counting the records one by one, as the loop does. */
  function Tallied(imgs: seq<Dict>): StatusCounts
    requires AllStatusReadable(imgs)
  {
    if imgs == [] then StatusCounts(0, 0, 0, 0, InitialQz)
    else CountOne(Tallied(imgs[..|imgs| - 1]), FehlerOf(imgs[|imgs| - 1]).value)
  }

  /**
   * The counting loop of chapter 1: open and closed cases, RQM relevance,
   * and the QZ states (starting from QZS and QZF at zero). `None` where
   * reading a record raises.
   */
  method CountStatus(imgs: seq<Dict>) returns (r: Option<StatusCounts>)
    ensures r.Some? <==> AllStatusReadable(imgs)
    ensures r.Some? ==> r.value == StatusCounts(|Filter(imgs, RecOpen)|, |Filter(imgs, RecClosed)|,
                                                |Filter(imgs, RecNoRqm)|, |Filter(imgs, RecRqm)|,
                                                InitialQz + Tally(QzKeys(imgs)))
  {
    var counts := StatusCounts(0, 0, 0, 0, InitialQz);
    var i := 0;
    while i < |imgs|
      invariant 0 <= i <= |imgs|
      invariant AllStatusReadable(imgs[..i]) && counts == Tallied(imgs[..i])
    {
      var f := FehlerOf(imgs[i]);
      if f.None? {
        assert !StatusReadable(imgs[i]);
        return None;
      }
      if !Hashable(QzKey(f.value)) {
        assert !StatusReadable(imgs[i]);
        return None;
      }
      counts := CountOne(counts, f.value);
      assert imgs[..i + 1][..i] == imgs[..i];
      i := i + 1;
    }
    assert imgs[..i] == imgs;
    TalliedCounts(imgs);
    r := Some(counts);
  }

  /**
   * Counting one by one gives the filter sizes and the tally of QZ states:
   * the loop's tallies against an independent description of them.
   */
  lemma {:induction false} TalliedCounts(imgs: seq<Dict>)
    requires AllStatusReadable(imgs)
    ensures Tallied(imgs) == StatusCounts(|Filter(imgs, RecOpen)|, |Filter(imgs, RecClosed)|,
                                          |Filter(imgs, RecNoRqm)|, |Filter(imgs, RecRqm)|,
                                          InitialQz + Tally(QzKeys(imgs)))
  {
    if imgs == [] {
      assert Tally(QzKeys(imgs)) == map[];
    } else {
      var i := |imgs| - 1;
      var init := imgs[..i];
      assert AllStatusReadable(init);
      TalliedCounts(init);
      FilterCountsStep(imgs, i);
      var k := QzKey(FehlerOf(imgs[i]).value);
      QzSnoc(imgs, i);
      TallyAppend(QzKeys(init), k);
      QzBump(Tally(QzKeys(init)), k);
      assert imgs[..i + 1] == imgs;
    }
  }

  /** One more record: each filter grows by the record when it passes. */
  lemma FilterCountsStep(imgs: seq<Dict>, i: nat)
    requires i < |imgs|
    ensures |Filter(imgs[..i + 1], RecOpen)| == |Filter(imgs[..i], RecOpen)| + (if RecOpen(imgs[i]) then 1 else 0)
    ensures |Filter(imgs[..i + 1], RecClosed)| == |Filter(imgs[..i], RecClosed)| + (if RecClosed(imgs[i]) then 1 else 0)
    ensures |Filter(imgs[..i + 1], RecNoRqm)| == |Filter(imgs[..i], RecNoRqm)| + (if RecNoRqm(imgs[i]) then 1 else 0)
    ensures |Filter(imgs[..i + 1], RecRqm)| == |Filter(imgs[..i], RecRqm)| + (if RecRqm(imgs[i]) then 1 else 0)
  {
    FilterSnoc(imgs, i, RecOpen);
    FilterSnoc(imgs, i, RecClosed);
    FilterSnoc(imgs, i, RecNoRqm);
    FilterSnoc(imgs, i, RecRqm);
  }

  /** One more readable record keeps the prefix readable and adds its QZ state to the key list. */
  lemma QzSnoc(imgs: seq<Dict>, i: nat)
    requires i < |imgs| && AllStatusReadable(imgs[..i]) && StatusReadable(imgs[i])
    ensures AllStatusReadable(imgs[..i + 1])
    ensures QzKeys(imgs[..i + 1]) == QzKeys(imgs[..i]) + [QzKey(FehlerOf(imgs[i]).value)]
  {
    assert imgs[..i + 1][..i] == imgs[..i];
  }

  /** Bumping a count on top of the zero-initialised QZ states bumps the tally underneath. */
  lemma QzBump(m: map<Json, nat>, k: Json)
    ensures Bump(InitialQz + m, k) == InitialQz + Bump(m, k)
  {
  }

  /**
   * Each pair of chapter-1 tallies covers every record exactly once, and
   * every QZ state met is counted by its occurrences while QZS and QZF are
   * always listed.
   */
  lemma StatusCountsCover(imgs: seq<Dict>)
    requires AllStatusReadable(imgs)
    ensures |Filter(imgs, RecOpen)| + |Filter(imgs, RecClosed)| == |imgs|
    ensures |Filter(imgs, RecNoRqm)| + |Filter(imgs, RecRqm)| == |imgs|
    ensures var qz := InitialQz + Tally(QzKeys(imgs));
      Str("QZS") in qz && Str("QZF") in qz
      && forall k :: k in QzKeys(imgs) ==> qz[k] == Occurrences(QzKeys(imgs), k)
  {
    FilterPartition(imgs, RecClosed, RecOpen);
    FilterPartition(imgs, RecRqm, RecNoRqm);
    var keys := QzKeys(imgs);
    forall k | k in keys
      ensures (InitialQz + Tally(keys))[k] == Occurrences(keys, k)
    {
      TallyCounts(keys, k);
    }
  }
}
