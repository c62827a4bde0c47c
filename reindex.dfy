/**
 * `reindex_audit_images`: the Fehlerbilder of one audit are renumbered
 * 001, 002, … in the order of their old numbers, and every canvas overlay
 * they own is renamed to match; base images and videos keep their names.
 * The renaming runs in two passes, first to temporary numbers and then to
 * the final ones, so that two records never claim the same overlay name.
 */
module Reindex {
  import opened Wrappers
  import opened Text
  import opened Json
  import opened Seqs
  import opened MediaRefs
  import opened MediaStore
  import opened RecordOps
  import opened RecordMedia
  import opened Sorting
  import opened AuditIndex

  const EmptyAuditMessage := "Keine Fehlerbilder in diesem Audit gefunden."
  const RenameErrorPrefix := "Overlay rename error: "

  // ------------------------------------------------------------ the store's files

  /** `shutil.move(src, dst)` on the store's files. */
  function Moved(files: map<string, Bytes>, src: string, dst: string): map<string, Bytes>
    requires src in files
  {
    (files - {src})[dst := files[src]]
  }

  /** The files hold the same contents under as many names: overlays were only moved. */
  predicate SameContents(before: map<string, Bytes>, after: map<string, Bytes>)
  {
    |after.Keys| == |before.Keys| && after.Values <= before.Values
  }

  lemma SameContentsTrans(a: map<string, Bytes>, b: map<string, Bytes>, c: map<string, Bytes>)
    requires SameContents(a, b) && SameContents(b, c)
    ensures SameContents(a, c)
  {
  }

  /** A move onto a free name keeps the number of files and every content. */
  lemma {:induction false} MovedKeepsContents(files: map<string, Bytes>, src: string, dst: string)
    requires src in files && dst !in files
    ensures SameContents(files, Moved(files, src, dst))
  {
    var m := Moved(files, src, dst);
    assert m.Keys == (files.Keys - {src}) + {dst};
    assert |files.Keys - {src}| == |files.Keys| - 1;
    assert dst !in files.Keys - {src};
    forall v | v in m.Values ensures v in files.Values {
      var p :| p in m && m[p] == v;
      if p == dst {
        assert files[src] == v;
      } else {
        assert files[p] == v;
      }
    }
  }

  /** `shutil.move` of a file onto a path that does not exist yet. */
  method MoveFile(store: Store, src: string, dst: string)
    requires store.Valid() && src in store.files
    modifies store
    ensures store.Valid()
    ensures store.files == Moved(old(store.files), src, dst)
    ensures store.regExists == old(store.regExists) && store.images == old(store.images)
    ensures store.videos == old(store.videos)
  {
    store.files := Moved(store.files, src, dst);
  }

  // ------------------------------------------------------------ collision names

  /** An overlay name as generated: the overlay prefix, then parts, then ".png". */
  predicate OverlayShaped(fn: string)
  {
    StartsWith(fn, OverlayPrefix) && EndsWith(fn, ".png") && |fn| >= 16
  }

  /** The name tried for the k-th collision: `<stem>_<k>.png`, where `<stem>.png` is the wanted name. */
  function Candidate(fn: string, k: nat): string
    requires EndsWith(fn, ".png")
  {
    fn[..|fn| - 4] + "_" + NatToString(k) + ".png"
  }

  /** The candidate is still an overlay name. */
  lemma CandidatePrefix(fn: string, k: nat)
    requires OverlayShaped(fn)
    ensures OverlayShaped(Candidate(fn, k))
  {
    var c := Candidate(fn, k);
    assert c[..|OverlayPrefix|] == fn[..|OverlayPrefix|];
    assert c[|c| - 4..] == ".png";
  }

  /** Two names under the overlay directory have the same path only when they are the same name. */
  lemma {:induction false} OverlayPathInjective(store: Store, x: string, y: string)
    requires store.RootOk() && x != [] && y != [] && x[0] != '/' && y[0] != '/'
    requires store.OverlayPath(x) == store.OverlayPath(y)
    ensures x == y
  {
    var d := PathJoin(store.root, "overlays");
    assert d == store.root + "/" + "overlays";
    assert d[|d| - 1] == 's';
    assert store.OverlayPath(x) == d + "/" + x;
    assert store.OverlayPath(y) == d + "/" + y;
    assert (d + "/" + x)[|d| + 1..] == x;
    assert (d + "/" + y)[|d| + 1..] == y;
  }

  /** Different counters give different candidate names. */
  lemma {:induction false} CandidateNamesDiffer(fn: string, j: nat, k: nat)
    requires EndsWith(fn, ".png") && Candidate(fn, j) == Candidate(fn, k)
    ensures j == k
  {
    var stem := fn[..|fn| - 4];
    var sj, sk := NatToString(j), NatToString(k);
    assert |sj| == |sk|;
    assert Candidate(fn, j)[|stem| + 1..|stem| + 1 + |sj|] == sj;
    assert Candidate(fn, k)[|stem| + 1..|stem| + 1 + |sk|] == sk;
    DigitsValueOfNat(j);
    DigitsValueOfNat(k);
  }

  /** The overlay path of the k-th candidate. */
  function CandidatePath(store: Store, fn: string, k: nat): string
    reads store
    requires EndsWith(fn, ".png")
  {
    store.OverlayPath(Candidate(fn, k))
  }

  /** Different counters give different overlay paths, so the collision search ends. */
  lemma CandidateInjective(store: Store, fn: string, j: nat, k: nat)
    requires store.RootOk() && OverlayShaped(fn)
    requires CandidatePath(store, fn, j) == CandidatePath(store, fn, k)
    ensures j == k
  {
    CandidatePrefix(fn, j);
    CandidatePrefix(fn, k);
    OverlayPathInjective(store, Candidate(fn, j), Candidate(fn, k));
    CandidateNamesDiffer(fn, j, k);
  }

  /** The candidate paths of the counters below `c`. */
  ghost function Tried(store: Store, fn: string, c: nat): set<string>
    reads store
    requires EndsWith(fn, ".png")
  {
    if c <= 1 then {} else Tried(store, fn, c - 1) + {CandidatePath(store, fn, c - 1)}
  }

  lemma {:induction false} TriedFacts(store: Store, fn: string, c: nat)
    requires store.RootOk() && OverlayShaped(fn)
    ensures c >= 1 ==> |Tried(store, fn, c)| == c - 1
    ensures forall p :: p in Tried(store, fn, c) ==> exists j :: 1 <= j < c && p == CandidatePath(store, fn, j)
  {
    if c > 1 {
      TriedFacts(store, fn, c - 1);
      var p := CandidatePath(store, fn, c - 1);
      if p in Tried(store, fn, c - 1) {
        var j :| 1 <= j < c - 1 && p == CandidatePath(store, fn, j);
        CandidateInjective(store, fn, j, c - 1);
      }
    }
  }

  lemma {:induction false} TriedExist(store: Store, fn: string, c: nat, files: map<string, Bytes>)
    requires EndsWith(fn, ".png")
    requires forall j :: 1 <= j < c ==> CandidatePath(store, fn, j) in files
    ensures Tried(store, fn, c) <= files.Keys
  {
    if c > 1 {
      TriedExist(store, fn, c - 1, files);
    }
  }

  lemma {:induction false} SubsetCard(a: set<string>, b: set<string>)
    requires a <= b
    ensures |a| <= |b|
  {
    if a != {} {
      var x :| x in a;
      SubsetCard(a - {x}, b - {x});
    }
  }

  /** Every counter tried names an existing file, so there are at least as many files as counters. */
  lemma CounterBound(store: Store, fn: string, c: nat, files: map<string, Bytes>)
    requires store.RootOk() && OverlayShaped(fn)
    requires c >= 1 && forall j :: 1 <= j < c ==> CandidatePath(store, fn, j) in files
    ensures c - 1 <= |files.Keys|
  {
    TriedFacts(store, fn, c);
    TriedExist(store, fn, c, files);
    SubsetCard(Tried(store, fn, c), files.Keys);
  }

  /** `k` is the first counter whose candidate path is free. */
  ghost predicate FirstFree(store: Store, files: map<string, Bytes>, fn: string, k: nat)
    reads store
    requires EndsWith(fn, ".png")
  {
    k >= 1 && CandidatePath(store, fn, k) !in files
    && forall j :: 1 <= j < k ==> CandidatePath(store, fn, j) in files
  }

  /** The collision loop: counters from 1 until the candidate path is free. */
  method FindFreeName(store: Store, fn: string) returns (name: string, ghost k: nat)
    requires store.RootOk() && OverlayShaped(fn)
    ensures FirstFree(store, store.files, fn, k) && name == Candidate(fn, k)
  {
    var counter := 1;
    var files := store.files;
    while CandidatePath(store, fn, counter) in files
      invariant counter >= 1
      invariant forall j :: 1 <= j < counter ==> CandidatePath(store, fn, j) in files
      decreases |files.Keys| + 1 - counter
    {
      CounterBound(store, fn, counter + 1, files);
      counter := counter + 1;
    }
    name, k := Candidate(fn, counter), counter;
  }

  // ------------------------------------------------------------ one overlay

  /** The generated overlay name has the shape the collision search relies on. */
  lemma OverlayFilenameShape(projectId: string, auditId: string, nr: string, overlayType: string, index: Option<int>)
    ensures var fn := OverlayFilename(projectId, auditId, nr, overlayType, index);
            OverlayShaped(fn)
  {
    var fn := OverlayFilename(projectId, auditId, nr, overlayType, index);
    OverlayFilenameIsOverlayRef(projectId, auditId, nr, overlayType, index);
    assert fn[..12] == "CANVAS__PRJ_";
    assert fn[..8] == fn[..12][..8];
  }

  /** The overlay name generated for the record's new number. */
  function TargetName(projectId: string, auditId: string, nr: string, overlayType: string, index: Option<int>): (fn: string)
    ensures OverlayShaped(fn)
  {
    OverlayFilenameShape(projectId, auditId, nr, overlayType, index);
    OverlayFilename(projectId, auditId, nr, overlayType, index)
  }

  /**
   * What moving the overlay at `src` to the generated name `fn` leaves: no
   * move when it is already there; otherwise the target is `fn`, or the first
   * free `_<k>` variant when `fn` exists, and the move either happens or
   * raises (the target is in `failing`) and keeps the old reference.
   */
  ghost predicate Relocated(store: Store, before: map<string, Bytes>, after: map<string, Bytes>, src: string,
                            fn: string, failing: set<string>, oldRef: string, r: string, errors: seq<string>,
                            name: string)
    reads store
    requires src in before && EndsWith(fn, ".png")
  {
    if src == store.OverlayPath(fn) then r == OverlayRefFor(fn) && errors == [] && after == before
    else
      (store.OverlayPath(fn) !in before ==> name == fn)
      && (store.OverlayPath(fn) in before ==> exists k :: FirstFree(store, before, fn, k) && name == Candidate(fn, k))
      && if store.OverlayPath(name) in failing then
           r == oldRef && errors == [RenameErrorPrefix + store.OverlayPath(name)] && after == before
         else
           r == OverlayRefFor(name) && errors == [] && after == Moved(before, src, store.OverlayPath(name))
  }

  /** The part of `rename_overlay` after the new name is generated. */
  method Relocate(store: Store, src: string, fn: string, failing: set<string>, oldRef: string)
    returns (r: string, errors: seq<string>, ghost name: string)
    requires store.Valid() && src in store.files
    requires OverlayShaped(fn)
    modifies store
    ensures store.Valid() && store.regExists == old(store.regExists)
    ensures store.images == old(store.images) && store.videos == old(store.videos)
    ensures Relocated(store, old(store.files), store.files, src, fn, failing, oldRef, r, errors, name)
    ensures SameContents(old(store.files), store.files)
    ensures |errors| <= 1 && forall e :: e in errors ==> StartsWith(e, RenameErrorPrefix)
    ensures errors == [] ==> Content(store, r) == Some(old(store.files)[src])
    ensures r == oldRef || MovedRef(r)
  {
    name := fn;
    if src == store.OverlayPath(fn) {
      store.ResolveOverlayRef(fn);
      MovedRefFor(fn);
      return OverlayRefFor(fn), [], name;
    }
    var target := fn;
    if store.OverlayPath(fn) in store.files {
      ghost var k;
      target, k := FindFreeName(store, fn);
      CandidatePrefix(fn, k);
    }
    name := target;
    var dst := store.OverlayPath(target);
    if dst in failing {
      return oldRef, [RenameErrorPrefix + dst], name;
    }
    MovedKeepsContents(store.files, src, dst);
    MoveFile(store, src, dst);
    store.ResolveOverlayRef(target);
    MovedRefFor(target);
    r, errors := OverlayRefFor(target), [];
  }

  /** A reference `rename_overlay` produces: "overlays/" and a generated overlay name. */
  predicate MovedRef(s: string)
  {
    StartsWith(s, "overlays/") && OverlayShaped(s[9..])
  }

  lemma MovedRefFor(name: string)
    requires OverlayShaped(name)
    ensures MovedRef(OverlayRefFor(name))
  {
    assert OverlayRefFor(name)[9..] == name;
  }

  /** How overlay names are generated for a project and audit: number, overlay type and index give a file name. */
  type NameGen = (string, string, Option<int>) -> string

  /** What the renames of one record are named for: the name generation and the numbers of the passes so far. */
  datatype Target = Target(gen: NameGen, nrs: seq<string>)

  /** The name generation of `rename_overlay` for a project id and an audit. */
  function GenFor(projectId: Json, auditId: string): NameGen
  {
    (nr: string, overlayType: string, index: Option<int>) =>
      TargetName(if StrArg(projectId).Some? then StrArg(projectId).value else "", auditId, nr, overlayType, index)
  }

  /** `gen` generates the names `rename_overlay` gives for this project id (when it is usable) and audit. */
  ghost predicate NamesFor(gen: NameGen, projectId: Json, auditId: string)
  {
    forall pid, nr, overlayType, index {:trigger TargetName(pid, auditId, nr, overlayType, index)} ::
      StrArg(projectId) == Some(pid) ==> gen(nr, overlayType, index) == TargetName(pid, auditId, nr, overlayType, index)
  }

  lemma GenForNames(projectId: Json, auditId: string)
    ensures NamesFor(GenFor(projectId, auditId), projectId, auditId)
  {
  }

  /** `s` refers to the generated overlay name `fn`, or to one of its `_<k>` collision variants. */
  ghost predicate NamedFor(s: string, fn: string)
  {
    OverlayShaped(fn) && (s == OverlayRefFor(fn) || exists k: nat :: 1 <= k && s == OverlayRefFor(Candidate(fn, k)))
  }

  /** `s` refers to the overlay name generated for one of the numbers `nrs`, or to one of its `_<k>` variants. */
  ghost predicate GeneratedAmong(s: string, gen: NameGen, nrs: seq<string>, overlayType: string, index: Option<int>)
  {
    nrs != [] && (NamedFor(s, gen(nrs[0], overlayType, index)) || GeneratedAmong(s, gen, nrs[1..], overlayType, index))
  }

  /** `s` refers to the overlay name generated for one of the target's numbers, or to one of its `_<k>` variants. */
  ghost predicate Generated(s: string, t: Target, overlayType: string, index: Option<int>)
  {
    GeneratedAmong(s, t.gen, t.nrs, overlayType, index)
  }

  /** The names generated for some numbers are among those generated for more numbers, before or after them. */
  lemma {:induction false} GeneratedAmongAppend(s: string, gen: NameGen, xs: seq<string>, ys: seq<string>,
                                                overlayType: string, index: Option<int>)
    ensures GeneratedAmong(s, gen, xs, overlayType, index) ==> GeneratedAmong(s, gen, xs + ys, overlayType, index)
    ensures GeneratedAmong(s, gen, ys, overlayType, index) ==> GeneratedAmong(s, gen, xs + ys, overlayType, index)
  {
    if xs != [] {
      assert (xs + ys)[0] == xs[0] && (xs + ys)[1..] == xs[1..] + ys;
      GeneratedAmongAppend(s, gen, xs[1..], ys, overlayType, index);
    } else {
      assert xs + ys == ys;
    }
  }

  /** A generated reference is an overlay reference. */
  lemma {:induction false} GeneratedIsOverlay(s: string, gen: NameGen, nrs: seq<string>, overlayType: string, index: Option<int>)
    requires GeneratedAmong(s, gen, nrs, overlayType, index)
    ensures IsOverlayRef(s) && |s| >= 9
  {
    if NamedFor(s, gen(nrs[0], overlayType, index)) {
      NamedForIsOverlay(s, gen(nrs[0], overlayType, index));
    } else {
      GeneratedIsOverlay(s, gen, nrs[1..], overlayType, index);
    }
  }

  /**
   * How `rename_overlay` may change a truthy reference: a text reference
   * that is not an overlay reference (a base image or video) is kept; any
   * other is kept or replaced by a generated reference for the target.
   */
  ghost predicate RenamedRef(before: Json, after: Json, t: Target, overlayType: string, index: Option<int>)
  {
    if before.Str? && !IsOverlayRef(before.s) then after == before
    else after == before || (after.Str? && Generated(after.s, t, overlayType, index))
  }

  /** A generated reference is an overlay reference. */
  lemma NamedForIsOverlay(s: string, fn: string)
    requires NamedFor(s, fn)
    ensures IsOverlayRef(s) && |s| >= 9
  {
    var name := fn;
    if s != OverlayRefFor(fn) {
      var k: nat :| 1 <= k && s == OverlayRefFor(Candidate(fn, k));
      CandidatePrefix(fn, k);
      name := Candidate(fn, k);
    }
    MovedRefFor(name);
    assert s[..9] == "overlays/";
    assert s != "";
  }

  /** Renaming for the numbers of one pass, then of another, is renaming for the numbers of both. */
  lemma RenamedRefTrans(a: Json, b: Json, c: Json, t1: Target, t2: Target, overlayType: string, index: Option<int>)
    requires t1.gen == t2.gen
    requires RenamedRef(a, b, t1, overlayType, index) && RenamedRef(b, c, t2, overlayType, index)
    ensures RenamedRef(a, c, Both(t1, t2), overlayType, index)
  {
    if b != a {
      GeneratedIsOverlay(b.s, t1.gen, t1.nrs, overlayType, index);
      GeneratedAmongAppend(b.s, t1.gen, t1.nrs, t2.nrs, overlayType, index);
      if c != b {
        GeneratedAmongAppend(c.s, t1.gen, t1.nrs, t2.nrs, overlayType, index);
      }
    } else if c != b && !(a.Str? && !IsOverlayRef(a.s)) {
      GeneratedAmongAppend(c.s, t1.gen, t1.nrs, t2.nrs, overlayType, index);
    }
  }

  /** The contents of the file a reference resolves to, when it resolves. */
  function Content(store: Store, ref: string): Option<Bytes>
    reads store
  {
    var p := store.Resolve(ref, None);
    if p.Some? && p.value in store.files then Some(store.files[p.value]) else None
  }

  /** The file an overlay reference resolves to, when it is one that `rename_overlay` moves. */
  function RenameSource(store: Store, ref: Json, projectRoot: Option<string>): (src: Option<string>)
    reads store
    ensures src.Some? ==> src.value in store.files
  {
    if ref.Str? && IsOverlayRef(ref.s) then store.Resolve(ref.s, projectRoot) else None
  }

  /**
   * `rename_overlay` inside `reindex_audit_images`: an empty reference gives
   * `None`; a reference that is not an overlay, or names no file, is kept;
   * otherwise the overlay is moved as `Relocated` says. A value that is not
   * text, and a project id that is neither empty nor text, raise (`None`).
   */
  method RenameOverlay(store: Store, oldRef: Json, projectId: Json, auditId: string, newNr: string,
                       overlayType: string, index: Option<int>, projectRoot: Option<string>, failing: set<string>,
                       ghost gen: NameGen)
    returns (r: Option<Json>, errors: seq<string>, ghost name: string)
    requires store.Valid() && NamesFor(gen, projectId, auditId)
    modifies store
    ensures store.Valid() && store.regExists == old(store.regExists)
    ensures store.images == old(store.images) && store.videos == old(store.videos)
    ensures SameContents(old(store.files), store.files)
    ensures |errors| <= 1 && forall e :: e in errors ==> StartsWith(e, RenameErrorPrefix)
    ensures !Truthy(oldRef) ==> r == Some(Null) && errors == [] && store.files == old(store.files)
    ensures Truthy(oldRef) && r.Some? ==> RenamedRef(oldRef, r.value, Target(gen, [newNr]), overlayType, index)
    ensures Truthy(oldRef) && !oldRef.Str? ==> r.None? && errors == [] && store.files == old(store.files)
    ensures Truthy(oldRef) && oldRef.Str? && old(RenameSource(store, oldRef, projectRoot)).None? ==>
              r == Some(oldRef) && errors == [] && store.files == old(store.files)
    ensures Truthy(oldRef) && old(RenameSource(store, oldRef, projectRoot)).Some? ==>
              var src := old(RenameSource(store, oldRef, projectRoot)).value;
              (StrArg(projectId).None? ==> r.None? && errors == [] && store.files == old(store.files))
              && (StrArg(projectId).Some? ==>
                    r.Some? && r.value.Str?
                    && Relocated(store, old(store.files), store.files, src,
                                 TargetName(StrArg(projectId).value, auditId, newNr, overlayType, index),
                                 failing, oldRef.s, r.value.s, errors, name)
                    && (errors == [] ==> Content(store, r.value.s) == Some(old(store.files)[src])))
  {
    name := "";
    if !Truthy(oldRef) {
      return Some(Null), [], name;
    }
    if !oldRef.Str? {
      return None, [], name;
    }
    var src := RenameSource(store, oldRef, projectRoot);
    if src.None? {
      return Some(oldRef), [], name;
    }
    assert src.value in store.files;
    var pid := StrArg(projectId);
    if pid.None? {
      return None, [], name;
    }
    var fn := TargetName(pid.value, auditId, newNr, overlayType, index);
    var moved;
    moved, errors, name := Relocate(store, src.value, fn, failing, oldRef.s);
    r := Some(Str(moved));
    RelocatedNamed(store, old(store.files), store.files, src.value, fn, failing, oldRef.s, moved, errors, name);
    assert gen(newNr, overlayType, index) == fn;
    NamedRenamed(oldRef, moved, Target(gen, [newNr]), overlayType, index);
  }

  /** A relocated reference is the old one or is named for the generated name. */
  lemma RelocatedNamed(store: Store, before: map<string, Bytes>, after: map<string, Bytes>, src: string, fn: string,
                       failing: set<string>, oldRef: string, r: string, errors: seq<string>, name: string)
    requires src in before && OverlayShaped(fn)
    requires Relocated(store, before, after, src, fn, failing, oldRef, r, errors, name)
    ensures r == oldRef || NamedFor(r, fn)
  {
    if r != oldRef && r != OverlayRefFor(fn) && store.OverlayPath(fn) in before {
      var k :| FirstFree(store, before, fn, k) && name == Candidate(fn, k);
    }
  }

  /** Keeping an overlay reference, or replacing it by one named for the target's only number, renames it. */
  lemma NamedRenamed(oldRef: Json, moved: string, t: Target, overlayType: string, index: Option<int>)
    requires oldRef.Str? && IsOverlayRef(oldRef.s) && |t.nrs| == 1
    requires moved == oldRef.s || NamedFor(moved, t.gen(t.nrs[0], overlayType, index))
    ensures RenamedRef(oldRef, Str(moved), t, overlayType, index)
  {
  }

  // ------------------------------------------------------------ one record

  /** The keys whose overlays a reindex renames. */
  const RenameKeys: set<string> :=
    {"overlay", "edited", "after_overlay", "after_edited", "ctx_list", "add_fehler_list", "add_after_list"}

  /** `k` is absent from both or holds the same value in both. */
  predicate KeyKept(before: Dict, after: Dict, k: string)
  {
    (k in after <==> k in before) && (k in before ==> after[k] == before[k])
  }

  /** Every key outside `keys` is kept. */
  ghost predicate KeptOutside(before: Dict, after: Dict, keys: set<string>)
  {
    forall k :: k !in keys ==> KeyKept(before, after, k)
  }

  /** A list entry after `rename_overlays_in_list`: its overlay, when set, is renamed into both keys. */
  ghost predicate EntryRenamed(before: Json, after: Json, t: Target, overlayType: string, index: int)
  {
    before.Obj? && after.Obj?
    && var ref := EntryOverlay(before);
       if !Truthy(ref) then after == before
       else "overlay" in after.fields && "edited" in after.fields
            && after.fields == before.fields["overlay" := after.fields["overlay"]]["edited" := after.fields["overlay"]]
            && RenamedRef(ref, after.fields["overlay"], t, overlayType, Some(index))
  }

  /** A list value after `rename_overlays_in_list`: an empty one is kept, a list is renamed entry by entry, each with its 1-based position. */
  ghost predicate ListRenamed(before: Json, after: Json, t: Target, overlayType: string)
  {
    if !Truthy(before) then after == before
    else before.Arr? && after.Arr? && |after.items| == |before.items|
         && forall i :: 0 <= i < |before.items| ==> EntryRenamed(before.items[i], after.items[i], t, overlayType, i + 1)
  }

  /** The pair `a`/`b` after a main or after overlay is renamed: kept when neither is set, else both hold the renamed reference. */
  ghost predicate PairRenamed(before: Dict, after: Dict, a: string, b: string, t: Target, overlayType: string)
  {
    var ref := Or(Get(before, a, Null), Get(before, b, Null));
    if !Truthy(ref) then KeyKept(before, after, a) && KeyKept(before, after, b)
    else a in after && b in after && after[a] == after[b] && RenamedRef(ref, after[a], t, overlayType, None)
  }

  /** The list under `key` after its overlays are renamed. */
  ghost predicate KeyListRenamed(before: Dict, after: Dict, key: string, t: Target, overlayType: string)
  {
    var v := Get(before, key, Null);
    if !Truthy(v) then KeyKept(before, after, key)
    else key in after && ListRenamed(v, after[key], t, overlayType)
  }

  /** Every overlay reference the record owns is renamed, each with its overlay type. */
  ghost predicate RefsRenamed(before: Dict, after: Dict, t: Target)
  {
    PairRenamed(before, after, "overlay", "edited", t, OverlayFehlerbild)
    && PairRenamed(before, after, "after_overlay", "after_edited", t, OverlayNacharbeit)
    && KeyListRenamed(before, after, "ctx_list", t, OverlayKontext)
    && KeyListRenamed(before, after, "add_fehler_list", t, OverlayZusatzFehler)
    && KeyListRenamed(before, after, "add_after_list", t, OverlayZusatzNacharbeit)
  }

  /** One pass over a record: its overlays renamed for the target, every other key kept. */
  ghost predicate RecordRenamed(before: Dict, after: Dict, t: Target)
  {
    KeptOutside(before, after, RenameKeys) && RefsRenamed(before, after, t)
  }

  /**
   * `rename_overlays_in_list`: every entry's overlay (or edited) reference
   * is renamed with the entry's 1-based position as index, and the new
   * reference is stored under both keys. A value that is not a list, an
   * entry that is not a dict and a reference that is not text raise.
   */
  method RenameEntries(store: Store, items: Json, projectId: Json, auditId: string, nr: string,
                       overlayType: string, projectRoot: Option<string>, failing: set<string>, ghost gen: NameGen)
    returns (r: Option<Json>, errors: seq<string>)
    requires store.Valid() && NamesFor(gen, projectId, auditId)
    modifies store
    ensures store.Valid() && store.regExists == old(store.regExists)
    ensures store.images == old(store.images) && store.videos == old(store.videos)
    ensures SameContents(old(store.files), store.files)
    ensures forall e :: e in errors ==> StartsWith(e, RenameErrorPrefix)
    ensures !Truthy(items) ==> r == Some(items) && errors == [] && store.files == old(store.files)
    ensures Truthy(items) && !items.Arr? ==> r.None? && store.files == old(store.files)
    ensures r.Some? && items.Arr? ==> forall i :: 0 <= i < |items.items| ==> Scannable(items.items[i])
    ensures r.Some? ==> ListRenamed(items, r.value, Target(gen, [nr]), overlayType)
  {
    errors := [];
    if !Truthy(items) {
      return Some(items), errors;
    }
    if !items.Arr? {
      return None, errors;
    }
    var out: seq<Json> := [];
    var i := 0;
    while i < |items.items|
      invariant 0 <= i <= |items.items| && |out| == i
      invariant forall j :: 0 <= j < i ==>
                  EntryRenamed(items.items[j], out[j], Target(gen, [nr]), overlayType, j + 1)
                  && Scannable(items.items[j])
      invariant store.Valid() && store.regExists == old(store.regExists)
      invariant store.images == old(store.images) && store.videos == old(store.videos)
      invariant SameContents(old(store.files), store.files)
      invariant forall e :: e in errors ==> StartsWith(e, RenameErrorPrefix)
    {
      var item := items.items[i];
      if !item.Obj? {
        return None, errors;
      }
      ghost var before := store.files;
      var renamed, errs := RenameEntry(store, item, projectId, auditId, nr, overlayType, i + 1, projectRoot, failing, gen);
      SameContentsTrans(old(store.files), before, store.files);
      errors := errors + errs;
      if renamed.None? {
        return None, errors;
      }
      out := out + [renamed.value];
      i := i + 1;
    }
    r := Some(Arr(out));
  }

  /** One entry of `rename_overlays_in_list`: its overlay renamed with the given 1-based index. */
  method RenameEntry(store: Store, item: Json, projectId: Json, auditId: string, nr: string,
                     overlayType: string, index: int, projectRoot: Option<string>, failing: set<string>,
                     ghost gen: NameGen)
    returns (r: Option<Json>, errors: seq<string>)
    requires store.Valid() && item.Obj? && NamesFor(gen, projectId, auditId)
    modifies store
    ensures store.Valid() && store.regExists == old(store.regExists)
    ensures store.images == old(store.images) && store.videos == old(store.videos)
    ensures SameContents(old(store.files), store.files)
    ensures forall e :: e in errors ==> StartsWith(e, RenameErrorPrefix)
    ensures r.Some? ==> EntryRenamed(item, r.value, Target(gen, [nr]), overlayType, index) && Scannable(item)
  {
    var ref := EntryOverlay(item);
    if !Truthy(ref) {
      return Some(item), [];
    }
    var renamed, errs, _ := RenameOverlay(store, ref, projectId, auditId, nr, overlayType, Some(index),
                                           projectRoot, failing, gen);
    errors := errs;
    if renamed.None? {
      return None, errors;
    }
    r := Some(Obj(item.fields["overlay" := renamed.value]["edited" := renamed.value]));
  }

  /** Parameters every rename of one reindex shares. */
  datatype Naming = Naming(projectId: Json, auditId: string, projectRoot: Option<string>, failing: set<string>, gen: NameGen)
  {
    /** The name generation is that of `rename_overlay` for the project id and audit. */
    ghost predicate Valid()
    {
      NamesFor(gen, projectId, auditId)
    }
  }

  /** The main (or after) overlay of a record: `rec.get(a) or rec.get(b)`, renamed into both keys. */
  method RenamePair(store: Store, rec: Dict, a: string, b: string, nr: string, overlayType: string, naming: Naming)
    returns (r: Option<Dict>, errors: seq<string>)
    requires store.Valid() && naming.Valid() && a != b
    modifies store
    ensures store.Valid() && store.regExists == old(store.regExists)
    ensures store.images == old(store.images) && store.videos == old(store.videos)
    ensures SameContents(old(store.files), store.files)
    ensures forall e :: e in errors ==> StartsWith(e, RenameErrorPrefix)
    ensures r.Some? ==> PairRenamed(rec, r.value, a, b, Target(naming.gen, [nr]), overlayType)
    ensures r.Some? ==> forall k :: k != a && k != b ==> KeyKept(rec, r.value, k)
  {
    var ref := Or(Get(rec, a, Null), Get(rec, b, Null));
    if !Truthy(ref) {
      return Some(rec), [];
    }
    var renamed: Option<Json>;
    ghost var name;
    renamed, errors, name := RenameOverlay(store, ref, naming.projectId, naming.auditId, nr, overlayType, None,
                                        naming.projectRoot, naming.failing, naming.gen);
    if renamed.None? {
      return None, errors;
    }
    PairStored(rec, a, b, renamed.value, rec[a := renamed.value][b := renamed.value],
               Target(naming.gen, [nr]), overlayType);
    r := Some(rec[a := renamed.value][b := renamed.value]);
  }

  /** Storing the renamed reference under both keys renames the pair and keeps the rest. */
  lemma PairStored(rec: Dict, a: string, b: string, v: Json, after: Dict, t: Target, overlayType: string)
    requires a != b && Truthy(Or(Get(rec, a, Null), Get(rec, b, Null)))
    requires RenamedRef(Or(Get(rec, a, Null), Get(rec, b, Null)), v, t, overlayType, None) && after == rec[a := v][b := v]
    ensures PairRenamed(rec, after, a, b, t, overlayType)
    ensures forall k :: k != a && k != b ==> KeyKept(rec, after, k)
  {
  }

  /** One of the record's entry lists, renamed by `rename_overlays_in_list`. */
  method RenameList(store: Store, rec: Dict, key: string, nr: string, overlayType: string, naming: Naming)
    returns (r: Option<Dict>, errors: seq<string>)
    requires store.Valid() && naming.Valid()
    modifies store
    ensures store.Valid() && store.regExists == old(store.regExists)
    ensures store.images == old(store.images) && store.videos == old(store.videos)
    ensures SameContents(old(store.files), store.files)
    ensures forall e :: e in errors ==> StartsWith(e, RenameErrorPrefix)
    ensures r.Some? ==> KeyListRenamed(rec, r.value, key, Target(naming.gen, [nr]), overlayType)
    ensures r.Some? ==> forall k :: k != key ==> KeyKept(rec, r.value, k)
  {
    var v := Get(rec, key, Null);
    var renamed;
    renamed, errors := RenameEntries(store, v, naming.projectId, naming.auditId, nr, overlayType,
                                     naming.projectRoot, naming.failing, naming.gen);
    if renamed.None? {
      return None, errors;
    }
    r := if Truthy(v) then Some(rec[key := renamed.value]) else Some(rec);
  }

  /** A renamed pair stays renamed when later steps keep its keys, and earlier steps that kept them do not matter. */
  lemma PairRenamedFramed(rec: Dict, r1: Dict, r2: Dict, r3: Dict, a: string, b: string, t: Target, overlayType: string)
    requires KeyKept(rec, r1, a) && KeyKept(rec, r1, b) && PairRenamed(r1, r2, a, b, t, overlayType)
    requires KeyKept(r2, r3, a) && KeyKept(r2, r3, b)
    ensures PairRenamed(rec, r3, a, b, t, overlayType)
  {
    assert Get(rec, a, Null) == Get(r1, a, Null) && Get(rec, b, Null) == Get(r1, b, Null);
  }

  /** The same for an entry list. */
  lemma KeyListRenamedFramed(rec: Dict, r1: Dict, r2: Dict, r3: Dict, key: string, t: Target, overlayType: string)
    requires KeyKept(rec, r1, key) && KeyListRenamed(r1, r2, key, t, overlayType) && KeyKept(r2, r3, key)
    ensures KeyListRenamed(rec, r3, key, t, overlayType)
  {
    assert Get(rec, key, Null) == Get(r1, key, Null);
  }

  /**
   * One pass of the reindex over one record: the main overlay, the after
   * overlay, then the context, additional-defect and additional-rework
   * lists, all named for the number `nr`.
   */
  method RenameRecord(store: Store, rec: Dict, nr: string, naming: Naming)
    returns (r: Option<Dict>, errors: seq<string>)
    requires store.Valid() && naming.Valid()
    modifies store
    ensures store.Valid() && store.regExists == old(store.regExists)
    ensures store.images == old(store.images) && store.videos == old(store.videos)
    ensures SameContents(old(store.files), store.files)
    ensures forall e :: e in errors ==> StartsWith(e, RenameErrorPrefix)
    ensures r.Some? ==> RecordRenamed(rec, r.value, Target(naming.gen, [nr]))
  {
    errors := [];
    ghost var f0 := store.files;
    var r1, e1 := RenamePair(store, rec, "overlay", "edited", nr, OverlayFehlerbild, naming);
    errors := errors + e1;
    if r1.None? { return None, errors; }
    ghost var f1 := store.files;
    var r2, e2 := RenamePair(store, r1.value, "after_overlay", "after_edited", nr, OverlayNacharbeit, naming);
    errors := errors + e2;
    if r2.None? { return None, errors; }
    ghost var f2 := store.files;
    SameContentsTrans(f0, f1, f2);
    var r3, e3 := RenameList(store, r2.value, "ctx_list", nr, OverlayKontext, naming);
    errors := errors + e3;
    if r3.None? { return None, errors; }
    ghost var f3 := store.files;
    SameContentsTrans(f0, f2, f3);
    var r4, e4 := RenameList(store, r3.value, "add_fehler_list", nr, OverlayZusatzFehler, naming);
    errors := errors + e4;
    if r4.None? { return None, errors; }
    ghost var f4 := store.files;
    SameContentsTrans(f0, f3, f4);
    var r5, e5 := RenameList(store, r4.value, "add_after_list", nr, OverlayZusatzNacharbeit, naming);
    errors := errors + e5;
    if r5.None? { return None, errors; }
    SameContentsTrans(f0, f4, store.files);
    RecordSteps(rec, r1.value, r2.value, r3.value, r4.value, r5.value, Target(naming.gen, [nr]));
    r := r5;
  }

  /** The five steps of `RenameRecord` together rename the record. */
  lemma RecordSteps(rec: Dict, r1: Dict, r2: Dict, r3: Dict, r4: Dict, r5: Dict, t: Target)
    requires PairRenamed(rec, r1, "overlay", "edited", t, OverlayFehlerbild)
    requires forall k :: k != "overlay" && k != "edited" ==> KeyKept(rec, r1, k)
    requires PairRenamed(r1, r2, "after_overlay", "after_edited", t, OverlayNacharbeit)
    requires forall k :: k != "after_overlay" && k != "after_edited" ==> KeyKept(r1, r2, k)
    requires KeyListRenamed(r2, r3, "ctx_list", t, OverlayKontext) && forall k :: k != "ctx_list" ==> KeyKept(r2, r3, k)
    requires KeyListRenamed(r3, r4, "add_fehler_list", t, OverlayZusatzFehler)
    requires forall k :: k != "add_fehler_list" ==> KeyKept(r3, r4, k)
    requires KeyListRenamed(r4, r5, "add_after_list", t, OverlayZusatzNacharbeit)
    requires forall k :: k != "add_after_list" ==> KeyKept(r4, r5, k)
    ensures RecordRenamed(rec, r5, t)
  {
    forall k | k in RenameKeys
      ensures KeyKept(rec, rec, k)
    {
    }
    Chain(rec, r1, r2, r3, r4, r5);
    PairRenamedFramed(rec, rec, r1, r5, "overlay", "edited", t, OverlayFehlerbild);
    PairRenamedFramed(rec, r1, r2, r5, "after_overlay", "after_edited", t, OverlayNacharbeit);
    KeyListRenamedFramed(rec, r2, r3, r5, "ctx_list", t, OverlayKontext);
    KeyListRenamedFramed(rec, r3, r4, r5, "add_fehler_list", t, OverlayZusatzFehler);
    KeyListRenamedFramed(rec, r4, r5, r5, "add_after_list", t, OverlayZusatzNacharbeit);
  }

  /** What each step of `RenameRecord` keeps, carried along the later steps. */
  lemma Chain(rec: Dict, r1: Dict, r2: Dict, r3: Dict, r4: Dict, r5: Dict)
    requires forall k :: k != "overlay" && k != "edited" ==> KeyKept(rec, r1, k)
    requires forall k :: k != "after_overlay" && k != "after_edited" ==> KeyKept(r1, r2, k)
    requires forall k :: k != "ctx_list" ==> KeyKept(r2, r3, k)
    requires forall k :: k != "add_fehler_list" ==> KeyKept(r3, r4, k)
    requires forall k :: k != "add_after_list" ==> KeyKept(r4, r5, k)
    ensures KeyKept(r1, r5, "overlay") && KeyKept(r1, r5, "edited")
    ensures KeyKept(rec, r1, "after_overlay") && KeyKept(rec, r1, "after_edited")
    ensures KeyKept(r2, r5, "after_overlay") && KeyKept(r2, r5, "after_edited")
    ensures KeyKept(rec, r2, "ctx_list") && KeyKept(r3, r5, "ctx_list")
    ensures KeyKept(rec, r3, "add_fehler_list") && KeyKept(r4, r5, "add_fehler_list")
    ensures KeyKept(rec, r4, "add_after_list")
    ensures KeptOutside(rec, r5, RenameKeys)
  {
    assert KeyKept(r1, r2, "overlay") && KeyKept(r2, r3, "overlay") && KeyKept(r3, r4, "overlay") && KeyKept(r4, r5, "overlay");
    assert KeyKept(r1, r2, "edited") && KeyKept(r2, r3, "edited") && KeyKept(r3, r4, "edited") && KeyKept(r4, r5, "edited");
    assert KeyKept(rec, r1, "after_overlay") && KeyKept(rec, r1, "after_edited");
    assert KeyKept(r2, r3, "after_overlay") && KeyKept(r3, r4, "after_overlay") && KeyKept(r4, r5, "after_overlay");
    assert KeyKept(r2, r3, "after_edited") && KeyKept(r3, r4, "after_edited") && KeyKept(r4, r5, "after_edited");
    assert KeyKept(rec, r1, "ctx_list") && KeyKept(r1, r2, "ctx_list");
    assert KeyKept(r3, r4, "ctx_list") && KeyKept(r4, r5, "ctx_list");
    assert KeyKept(rec, r1, "add_fehler_list") && KeyKept(r1, r2, "add_fehler_list") && KeyKept(r2, r3, "add_fehler_list");
    assert KeyKept(rec, r1, "add_after_list") && KeyKept(r1, r2, "add_after_list") && KeyKept(r2, r3, "add_after_list");
    assert KeyKept(r3, r4, "add_after_list");
    forall k | k !in RenameKeys
      ensures KeyKept(rec, r5, k)
    {
      assert KeyKept(rec, r1, k) && KeyKept(r1, r2, k) && KeyKept(r2, r3, k) && KeyKept(r3, r4, k) && KeyKept(r4, r5, k);
    }
  }

  // ------------------------------------------------------------ the new order

  /** The positions, in index order, of the audit's records from position `from` on. */
  function AuditPositions(images: seq<Dict>, auditId: string, from: nat): (pos: seq<nat>)
    ensures forall k :: 0 <= k < |pos| ==> from <= pos[k] < |images| && InAudit(images[pos[k]], auditId)
    ensures forall j, k :: 0 <= j < k < |pos| ==> pos[j] < pos[k]
    ensures forall p :: from <= p < |images| && InAudit(images[p], auditId) ==> p in pos
    decreases |images| - from
  {
    if from >= |images| then []
    else if InAudit(images[from], auditId) then [from] + AuditPositions(images, auditId, from + 1)
    else AuditPositions(images, auditId, from + 1)
  }

  /** The records at those positions are `_images_for_audit`'s list. */
  lemma {:induction false} AuditPositionsPick(images: seq<Dict>, auditId: string, from: nat)
    requires from <= |images|
    ensures Pick(images, AuditPositions(images, auditId, from)) == ImagesForAudit(images[from..], auditId)
    decreases |images| - from
  {
    if from < |images| {
      AuditPositionsPick(images, auditId, from + 1);
      assert images[from..][1..] == images[from + 1..];
      var pos := AuditPositions(images, auditId, from);
      if InAudit(images[from], auditId) {
        assert pos[1..] == AuditPositions(images, auditId, from + 1);
      }
    } else {
      assert images[from..] == [];
    }
  }

  /** The sort key of `audit_images.sort(key=lambda r: r.get("nr", "999"))`: the number's text. */
  function ReindexKey(rec: Dict): seq<int>
  {
    var v := Get(rec, "nr", Str("999"));
    if v.Str? then Codes(v.s) else []
  }

  /** The sort compares only text numbers; a single record is never compared. */
  predicate SortableNrs(recs: seq<Dict>)
  {
    |recs| <= 1 || forall i :: 0 <= i < |recs| ==> Get(recs[i], "nr", Str("999")).Str?
  }

  /** The index positions of the audit's records, in the order the reindex numbers them. */
  function ReindexOrder(images: seq<Dict>, auditId: string): (order: seq<nat>)
    ensures |order| == |ImagesForAudit(images, auditId)|
    ensures forall k :: 0 <= k < |order| ==> order[k] < |images|
  {
    var pos := AuditPositions(images, auditId, 0);
    AuditPositionsCount(images, auditId);
    var perm := SortPermutation(ImagesForAudit(images, auditId), ReindexKey, false);
    seq(|perm|, k requires 0 <= k < |perm| => pos[perm[k]])
  }

  /** There is one position per record of the audit. */
  lemma AuditPositionsCount(images: seq<Dict>, auditId: string)
    ensures |AuditPositions(images, auditId, 0)| == |ImagesForAudit(images, auditId)|
  {
    AuditPositionsPick(images, auditId, 0);
    PickAt(images, AuditPositions(images, auditId, 0));
    assert images[0..] == images;
  }

  /** No position is listed twice. */
  ghost predicate Distinct(s: seq<nat>)
  {
    forall j, k :: 0 <= j < k < |s| ==> s[j] != s[k]
  }

  /** The order picks the audit's positions through the sort permutation of the audit's records. */
  lemma OrderPicks(images: seq<Dict>, auditId: string)
    ensures var pos := AuditPositions(images, auditId, 0);
      var recs := ImagesForAudit(images, auditId);
      var perm := SortPermutation(recs, ReindexKey, false);
      var order := ReindexOrder(images, auditId);
      |pos| == |recs| == |perm| == |order|
      && (forall k :: 0 <= k < |order| ==> order[k] == pos[perm[k]] && images[order[k]] == recs[perm[k]])
      && (forall i :: 0 <= i < |pos| ==> images[pos[i]] == recs[i])
  {
    var pos := AuditPositions(images, auditId, 0);
    AuditPositionsPick(images, auditId, 0);
    PickAt(images, pos);
    assert images[0..] == images;
  }

  /** Every record of the audit is numbered. */
  lemma OrderCoversAudit(images: seq<Dict>, auditId: string)
    ensures var order := ReindexOrder(images, auditId);
      forall p :: 0 <= p < |images| && InAudit(images[p], auditId) ==> p in order
  {
    var pos := AuditPositions(images, auditId, 0);
    var recs := ImagesForAudit(images, auditId);
    var perm := SortPermutation(recs, ReindexKey, false);
    var order := ReindexOrder(images, auditId);
    OrderPicks(images, auditId);
    SortPermutationCovers(recs, ReindexKey, false);
    forall p | 0 <= p < |images| && InAudit(images[p], auditId)
      ensures p in order
    {
      var i :| 0 <= i < |pos| && pos[i] == p;
      assert i in perm;
      var k :| 0 <= k < |perm| && perm[k] == i;
      assert order[k] == p;
    }
  }

  /** What the stable sort says about its permutation of the audit's records. */
  lemma PermFacts(recs: seq<Dict>)
    ensures var perm := SortPermutation(recs, ReindexKey, false);
      Distinct(perm)
      && (forall j, k :: 0 <= j < k < |perm| ==> !LexLess(ReindexKey(recs[perm[k]]), ReindexKey(recs[perm[j]])))
      && (forall j, k :: 0 <= j < k < |perm| && ReindexKey(recs[perm[j]]) == ReindexKey(recs[perm[k]]) ==>
            perm[j] < perm[k])
  {
    SortByIsStableSort(recs, ReindexKey, false);
  }

  /** No record is numbered twice. */
  lemma OrderDistinct(images: seq<Dict>, auditId: string)
    ensures Distinct(ReindexOrder(images, auditId))
  {
    var pos := AuditPositions(images, auditId, 0);
    var recs := ImagesForAudit(images, auditId);
    var perm := SortPermutation(recs, ReindexKey, false);
    var order := ReindexOrder(images, auditId);
    OrderPicks(images, auditId);
    PermFacts(recs);
    forall j, k | 0 <= j < k < |order|
      ensures order[j] != order[k]
    {
      assert perm[j] != perm[k];
      if perm[j] < perm[k] {
        assert pos[perm[j]] < pos[perm[k]];
      } else {
        assert pos[perm[k]] < pos[perm[j]];
      }
    }
  }

  /** A record numbered later never has the smaller old number. */
  lemma OrderSorted(images: seq<Dict>, auditId: string)
    ensures var order := ReindexOrder(images, auditId);
      forall j, k :: 0 <= j < k < |order| ==> !LexLess(ReindexKey(images[order[k]]), ReindexKey(images[order[j]]))
  {
    OrderPicks(images, auditId);
    PermFacts(ImagesForAudit(images, auditId));
  }

  /** Records with the same old number keep their index order. */
  lemma OrderStable(images: seq<Dict>, auditId: string)
    ensures var order := ReindexOrder(images, auditId);
      forall j, k :: 0 <= j < k < |order| && ReindexKey(images[order[j]]) == ReindexKey(images[order[k]]) ==>
        order[j] < order[k]
  {
    var pos := AuditPositions(images, auditId, 0);
    var recs := ImagesForAudit(images, auditId);
    var perm := SortPermutation(recs, ReindexKey, false);
    var order := ReindexOrder(images, auditId);
    OrderPicks(images, auditId);
    PermFacts(recs);
    forall j, k | 0 <= j < k < |order| && ReindexKey(images[order[j]]) == ReindexKey(images[order[k]])
      ensures order[j] < order[k]
    {
      assert perm[j] < perm[k];
      assert pos[perm[j]] < pos[perm[k]];
    }
  }

  /**
   * The reindex numbers the audit's records in a stable sort by their old
   * number's text: `order` lists every record of the audit exactly once, a
   * smaller old number comes first, and equal old numbers keep index order.
   */
  lemma ReindexOrderIsStableSort(images: seq<Dict>, auditId: string)
    ensures var order := ReindexOrder(images, auditId);
      (forall k :: 0 <= k < |order| ==> InAudit(images[order[k]], auditId))
      && (forall p :: 0 <= p < |images| && InAudit(images[p], auditId) ==> p in order)
      && Distinct(order)
      && (forall j, k :: 0 <= j < k < |order| ==>
            !LexLess(ReindexKey(images[order[k]]), ReindexKey(images[order[j]])))
      && (forall j, k :: 0 <= j < k < |order| && ReindexKey(images[order[j]]) == ReindexKey(images[order[k]]) ==>
            order[j] < order[k])
  {
    OrderPicks(images, auditId);
    OrderCoversAudit(images, auditId);
    OrderDistinct(images, auditId);
    OrderSorted(images, auditId);
    OrderStable(images, auditId);
  }

  // ------------------------------------------------------------ two passes

  /** A renamed truthy reference stays truthy: it is the old one or a generated one. */
  lemma RenamedRefTruthy(before: Json, after: Json, t: Target, overlayType: string, index: Option<int>)
    requires Truthy(before) && RenamedRef(before, after, t, overlayType, index)
    ensures Truthy(after)
  {
    if after != before {
      GeneratedIsOverlay(after.s, t.gen, t.nrs, overlayType, index);
    }
  }

  /** The target of two passes: the first's numbers, then the second's. */
  function Both(t1: Target, t2: Target): Target
  {
    Target(t1.gen, t1.nrs + t2.nrs)
  }

  lemma EntryRenamedTrans(a: Json, b: Json, c: Json, t1: Target, t2: Target, overlayType: string, index: int)
    requires t1.gen == t2.gen
    requires EntryRenamed(a, b, t1, overlayType, index) && EntryRenamed(b, c, t2, overlayType, index)
    ensures EntryRenamed(a, c, Both(t1, t2), overlayType, index)
  {
    var ref := EntryOverlay(a);
    if Truthy(ref) {
      var v := b.fields["overlay"];
      var w := c.fields["overlay"];
      RenamedRefTruthy(ref, v, t1, overlayType, Some(index));
      assert EntryOverlay(b) == v;
      RenamedRefTrans(ref, v, w, t1, t2, overlayType, Some(index));
      OverlayStoredTwice(a.fields, v, w);
    }
  }

  /** Storing a second reference over the first leaves what storing the second alone would. */
  lemma OverlayStoredTwice(m: map<string, Json>, v: Json, w: Json)
    ensures m["overlay" := v]["edited" := v]["overlay" := w]["edited" := w] == m["overlay" := w]["edited" := w]
  {
  }

  lemma ListRenamedTrans(a: Json, b: Json, c: Json, t1: Target, t2: Target, overlayType: string)
    requires t1.gen == t2.gen
    requires ListRenamed(a, b, t1, overlayType) && ListRenamed(b, c, t2, overlayType)
    ensures ListRenamed(a, c, Both(t1, t2), overlayType)
  {
    if Truthy(a) {
      assert Truthy(b);
      EntriesRenamedTrans(a.items, b.items, c.items, t1, t2, overlayType);
    }
  }

  lemma EntriesRenamedTrans(a: seq<Json>, b: seq<Json>, c: seq<Json>, t1: Target, t2: Target, overlayType: string)
    requires t1.gen == t2.gen && |a| == |b| == |c|
    requires forall i :: 0 <= i < |a| ==> EntryRenamed(a[i], b[i], t1, overlayType, i + 1)
    requires forall i :: 0 <= i < |b| ==> EntryRenamed(b[i], c[i], t2, overlayType, i + 1)
    ensures forall i :: 0 <= i < |a| ==> EntryRenamed(a[i], c[i], Both(t1, t2), overlayType, i + 1)
  {
    forall i | 0 <= i < |a|
      ensures EntryRenamed(a[i], c[i], Both(t1, t2), overlayType, i + 1)
    {
      EntryRenamedTrans(a[i], b[i], c[i], t1, t2, overlayType, i + 1);
    }
  }

  lemma PairRenamedTrans(a: Dict, b: Dict, c: Dict, x: string, y: string, t1: Target, t2: Target, overlayType: string)
    requires t1.gen == t2.gen
    requires PairRenamed(a, b, x, y, t1, overlayType) && PairRenamed(b, c, x, y, t2, overlayType)
    ensures PairRenamed(a, c, x, y, Both(t1, t2), overlayType)
  {
    var ref := Or(Get(a, x, Null), Get(a, y, Null));
    if Truthy(ref) {
      RenamedRefTruthy(ref, b[x], t1, overlayType, None);
      assert Or(Get(b, x, Null), Get(b, y, Null)) == b[x];
      RenamedRefTrans(ref, b[x], c[x], t1, t2, overlayType, None);
    }
  }

  lemma KeyListRenamedTrans(a: Dict, b: Dict, c: Dict, key: string, t1: Target, t2: Target, overlayType: string)
    requires t1.gen == t2.gen
    requires KeyListRenamed(a, b, key, t1, overlayType) && KeyListRenamed(b, c, key, t2, overlayType)
    ensures KeyListRenamed(a, c, key, Both(t1, t2), overlayType)
  {
    var v := Get(a, key, Null);
    if Truthy(v) {
      assert Truthy(b[key]);
      ListRenamedTrans(v, b[key], c[key], t1, t2, overlayType);
    }
  }

  /** The two passes of the reindex together rename the record's overlays for the numbers of both. */
  lemma RecordRenamedTrans(a: Dict, b: Dict, c: Dict, t1: Target, t2: Target)
    requires t1.gen == t2.gen
    requires RecordRenamed(a, b, t1) && RecordRenamed(b, c, t2)
    ensures RecordRenamed(a, c, Both(t1, t2))
  {
    PairRenamedTrans(a, b, c, "overlay", "edited", t1, t2, OverlayFehlerbild);
    PairRenamedTrans(a, b, c, "after_overlay", "after_edited", t1, t2, OverlayNacharbeit);
    KeyListRenamedTrans(a, b, c, "ctx_list", t1, t2, OverlayKontext);
    KeyListRenamedTrans(a, b, c, "add_fehler_list", t1, t2, OverlayZusatzFehler);
    KeyListRenamedTrans(a, b, c, "add_after_list", t1, t2, OverlayZusatzNacharbeit);
    forall k | k !in RenameKeys
      ensures KeyKept(a, c, k)
    {
      assert KeyKept(a, b, k) && KeyKept(b, c, k);
    }
  }

  /** The target of the k-th record's first pass: its temporary number. */
  function TempTarget(gen: NameGen, k: nat): Target
  {
    Target(gen, [TempNr(k)])
  }

  /** The target of the k-th record's two passes: its temporary number, then the number k+1. */
  function FinalTarget(gen: NameGen, k: nat): Target
  {
    Target(gen, [TempNr(k), Format03(k + 1)])
  }

  /** The temporary number, then the number k+1, are the numbers of both passes. */
  lemma BothPasses(gen: NameGen, k: nat)
    ensures Both(TempTarget(gen, k), Target(gen, [Format03(k + 1)])) == FinalTarget(gen, k)
  {
  }

  /**
   * The final state of the k-th record: overlays renamed for its temporary
   * number or for k+1, number set to k+1, everything else kept.
   */
  ghost predicate Renumbered(before: Dict, after: Dict, k: nat, gen: NameGen)
  {
    KeptOutside(before, after, RenameKeys + {"nr"}) && RefsRenamed(before, after, FinalTarget(gen, k))
    && Get(after, "nr", Null) == Str(Format03(k + 1))
  }

  /** Setting the number after the renames gives the final state. */
  lemma SetNumber(before: Dict, renamed: Dict, k: nat, after: Dict, gen: NameGen)
    requires RecordRenamed(before, renamed, FinalTarget(gen, k))
    requires after == renamed["nr" := Str(Format03(k + 1))]
    ensures Renumbered(before, after, k, gen)
  {
    var t := FinalTarget(gen, k);
    forall key | key in RenameKeys
      ensures KeyKept(renamed, after, key)
    {
    }
    PairRenamedFramed(before, before, renamed, after, "overlay", "edited", t, OverlayFehlerbild);
    PairRenamedFramed(before, before, renamed, after, "after_overlay", "after_edited", t, OverlayNacharbeit);
    KeyListRenamedFramed(before, before, renamed, after, "ctx_list", t, OverlayKontext);
    KeyListRenamedFramed(before, before, renamed, after, "add_fehler_list", t, OverlayZusatzFehler);
    KeyListRenamedFramed(before, before, renamed, after, "add_after_list", t, OverlayZusatzNacharbeit);
    forall key | key !in RenameKeys + {"nr"}
      ensures KeyKept(before, after, key)
    {
      assert KeyKept(before, renamed, key);
    }
  }

  /** Different places in the order get different numbers. */
  lemma NumbersDiffer(j: nat, k: nat)
    requires j != k
    ensures Format03(j + 1) != Format03(k + 1)
  {
    Format03RoundTrip(j + 1);
    Format03RoundTrip(k + 1);
  }

  /** `index["images"][p] = rec`, the in-place update of one record. */
  method SetImage(index: ProjectIndex, p: nat, rec: Dict)
    requires p < |index.images|
    modifies index
    ensures index.images == old(index.images)[p := rec]
    ensures index.counters == old(index.counters) && index.project == old(index.project)
  {
    index.images := index.images[p := rec];
  }

  /**
   * `index.get("project", {}).get("project_id", "PROJ")`: the default when
   * the project block is absent, the block's entry when it is a dict, and
   * `None` where the lookup raises (a project block that is not a dict).
   */
  function ProjectIdValue(project: Option<Json>): (r: Option<Json>)
    ensures r.None? <==> project.Some? && !project.value.Obj?
    ensures project.None? ==> r == Some(Str("PROJ"))
    ensures project.Some? && project.value.Obj? && "project_id" in project.value.fields ==>
      r == Some(project.value.fields["project_id"])
  {
    match project
    case None => Some(Str("PROJ"))
    case Some(Obj(fields)) => Some(Get(fields, "project_id", Str("PROJ")))
    case Some(_) => None
  }

  /** The temporary number of the i-th record in the first pass, `_TMP_000`, `_TMP_001`, ... */
  function TempNr(i: nat): (nr: string)
    ensures |nr| >= 8 && nr[..5] == "_TMP_" && nr[5..] == Format03(i)
  {
    "_TMP_" + Format03(i)
  }

  /** Writing the i-th record of `order` keeps what the first pass has established so far. */
  lemma TempStep(orig: seq<Dict>, cur: seq<Dict>, order: seq<nat>, i: nat, rec: Dict, next: seq<Dict>,
                 gen: NameGen)
    requires Distinct(order) && i < |order| && |cur| == |orig|
    requires forall k :: 0 <= k < |order| ==> order[k] < |orig|
    requires forall p :: 0 <= p < |orig| && p !in order ==> cur[p] == orig[p]
    requires forall k :: 0 <= k < i ==> RecordRenamed(orig[order[k]], cur[order[k]], TempTarget(gen, k))
    requires forall k :: i <= k < |order| ==> cur[order[k]] == orig[order[k]]
    requires RecordRenamed(orig[order[i]], rec, TempTarget(gen, i)) && next == cur[order[i] := rec]
    ensures forall p :: 0 <= p < |orig| && p !in order ==> next[p] == orig[p]
    ensures forall k :: 0 <= k < i + 1 ==> RecordRenamed(orig[order[k]], next[order[k]], TempTarget(gen, k))
    ensures forall k :: i + 1 <= k < |order| ==> next[order[k]] == orig[order[k]]
  {
    forall k | 0 <= k < |order| && k != i
      ensures next[order[k]] == cur[order[k]]
    {
      assert order[k] != order[i];
    }
  }

  /** Writing the i-th record of `order` keeps what the second pass has established so far. */
  lemma FinalStep(from: seq<Dict>, orig: seq<Dict>, cur: seq<Dict>, order: seq<nat>, i: nat, rec: Dict, next: seq<Dict>,
                  gen: NameGen)
    requires Distinct(order) && i < |order| && |cur| == |orig| && |from| == |orig|
    requires forall k :: 0 <= k < |order| ==> order[k] < |orig|
    requires forall p :: 0 <= p < |orig| && p !in order ==> cur[p] == orig[p]
    requires forall k :: 0 <= k < i ==> Renumbered(from[order[k]], cur[order[k]], k, gen)
    requires forall k :: i <= k < |order| ==> cur[order[k]] == orig[order[k]]
    requires Renumbered(from[order[i]], rec, i, gen) && next == cur[order[i] := rec]
    ensures forall p :: 0 <= p < |orig| && p !in order ==> next[p] == orig[p]
    ensures forall k :: 0 <= k < i + 1 ==> Renumbered(from[order[k]], next[order[k]], k, gen)
    ensures forall k :: i + 1 <= k < |order| ==> next[order[k]] == orig[order[k]]
  {
    forall k | 0 <= k < |order| && k != i
      ensures next[order[k]] == cur[order[k]]
    {
      assert order[k] != order[i];
    }
  }

  /**
   * Pass 1: every record of `order` gets its overlays renamed to temporary
   * names. Records outside `order` are not touched.
   */
  method TempPass(index: ProjectIndex, store: Store, order: seq<nat>, naming: Naming)
    returns (ok: bool, errors: seq<string>)
    requires store.Valid() && naming.Valid() && Distinct(order)
    requires forall k :: 0 <= k < |order| ==> order[k] < |index.images|
    modifies index, store
    ensures index.counters == old(index.counters) && index.project == old(index.project)
    ensures |index.images| == |old(index.images)|
    ensures store.Valid() && store.regExists == old(store.regExists)
    ensures store.images == old(store.images) && store.videos == old(store.videos)
    ensures SameContents(old(store.files), store.files)
    ensures forall e :: e in errors ==> StartsWith(e, RenameErrorPrefix)
    ensures forall p :: 0 <= p < |index.images| && p !in order ==> index.images[p] == old(index.images)[p]
    ensures ok ==> forall k :: 0 <= k < |order| ==>
                     RecordRenamed(old(index.images)[order[k]], index.images[order[k]],
                                   TempTarget(naming.gen, k))
  {
    ghost var orig := index.images;
    errors := [];
    var i := 0;
    while i < |order|
      invariant 0 <= i <= |order|
      invariant index.counters == old(index.counters) && index.project == old(index.project)
      invariant |index.images| == |orig|
      invariant store.Valid() && store.regExists == old(store.regExists)
      invariant store.images == old(store.images) && store.videos == old(store.videos)
      invariant SameContents(old(store.files), store.files)
      invariant forall e :: e in errors ==> StartsWith(e, RenameErrorPrefix)
      invariant forall p :: 0 <= p < |orig| && p !in order ==> index.images[p] == orig[p]
      invariant forall k :: 0 <= k < i ==>
                  RecordRenamed(orig[order[k]], index.images[order[k]], TempTarget(naming.gen, k))
      invariant forall k :: i <= k < |order| ==> index.images[order[k]] == orig[order[k]]
    {
      var p := order[i];
      ghost var before := store.files;
      var renamed, errs := RenameRecord(store, index.images[p], TempNr(i), naming);
      SameContentsTrans(old(store.files), before, store.files);
      errors := errors + errs;
      if renamed.None? {
        return false, errors;
      }
      ghost var cur := index.images;
      SetImage(index, p, renamed.value);
      TempStep(orig, cur, order, i, renamed.value, index.images, naming.gen);
      i := i + 1;
    }
    ok := true;
  }

  /**
   * Pass 2: the k-th record of `order` gets its overlays renamed for the
   * number k+1 and its `nr` set to that number. Together with the first
   * pass (`renamedFrom` holds the records before it) each record ends
   * `Renumbered`.
   */
  method FinalPass(index: ProjectIndex, store: Store, order: seq<nat>, naming: Naming, ghost renamedFrom: seq<Dict>)
    returns (ok: bool, errors: seq<string>)
    requires store.Valid() && naming.Valid() && Distinct(order)
    requires |renamedFrom| == |index.images|
    requires forall k :: 0 <= k < |order| ==> order[k] < |index.images|
    requires forall k :: 0 <= k < |order| ==>
               RecordRenamed(renamedFrom[order[k]], index.images[order[k]], TempTarget(naming.gen, k))
    modifies index, store
    ensures index.counters == old(index.counters) && index.project == old(index.project)
    ensures |index.images| == |old(index.images)|
    ensures store.Valid() && store.regExists == old(store.regExists)
    ensures store.images == old(store.images) && store.videos == old(store.videos)
    ensures SameContents(old(store.files), store.files)
    ensures forall e :: e in errors ==> StartsWith(e, RenameErrorPrefix)
    ensures forall p :: 0 <= p < |index.images| && p !in order ==> index.images[p] == old(index.images)[p]
    ensures ok ==> forall k :: 0 <= k < |order| ==>
                     Renumbered(renamedFrom[order[k]], index.images[order[k]], k, naming.gen)
  {
    ghost var orig := index.images;
    errors := [];
    var i := 0;
    while i < |order|
      invariant 0 <= i <= |order|
      invariant index.counters == old(index.counters) && index.project == old(index.project)
      invariant |index.images| == |orig|
      invariant store.Valid() && store.regExists == old(store.regExists)
      invariant store.images == old(store.images) && store.videos == old(store.videos)
      invariant SameContents(old(store.files), store.files)
      invariant forall e :: e in errors ==> StartsWith(e, RenameErrorPrefix)
      invariant forall p :: 0 <= p < |orig| && p !in order ==> index.images[p] == orig[p]
      invariant forall k :: 0 <= k < i ==>
                  Renumbered(renamedFrom[order[k]], index.images[order[k]], k, naming.gen)
      invariant forall k :: i <= k < |order| ==> index.images[order[k]] == orig[order[k]]
    {
      var p := order[i];
      var nr := Format03(i + 1);
      ghost var before := store.files;
      var renamed, errs := RenameRecord(store, index.images[p], nr, naming);
      SameContentsTrans(old(store.files), before, store.files);
      errors := errors + errs;
      if renamed.None? {
        return false, errors;
      }
      var rec := renamed.value["nr" := Str(nr)];
      RecordRenamedTrans(renamedFrom[p], orig[p], renamed.value, TempTarget(naming.gen, i),
                         Target(naming.gen, [nr]));
      BothPasses(naming.gen, i);
      SetNumber(renamedFrom[p], renamed.value, i, rec, naming.gen);
      ghost var cur := index.images;
      SetImage(index, p, rec);
      FinalStep(renamedFrom, orig, cur, order, i, rec, index.images, naming.gen);
      i := i + 1;
    }
    ok := true;
  }

  /** The records the reindex leaves untouched: everything outside the audit. */
  ghost predicate OutsideKept(before: seq<Dict>, after: seq<Dict>, auditId: string)
  {
    |after| == |before| && forall p :: 0 <= p < |before| && !InAudit(before[p], auditId) ==> after[p] == before[p]
  }

  /** The final state of the audit's records: the k-th of the order is `Renumbered` for k. */
  ghost predicate AuditRenumbered(before: seq<Dict>, after: seq<Dict>, auditId: string, gen: NameGen)
  {
    var order := ReindexOrder(before, auditId);
    |after| == |before|
    && forall k :: 0 <= k < |order| ==> Renumbered(before[order[k]], after[order[k]], k, gen)
  }

  /**
   * `reindex_audit_images`: numbers the audit's records 001, 002, ... in a
   * stable sort by their old numbers and renames their canvas overlays in
   * two passes (temporary names first, so that no new name meets an old one).
   * `None` where the source raises; the result is the number of records and
   * the rename errors otherwise.
   */
  method ReindexAuditImages(index: ProjectIndex, store: Store, auditId: string,
                            projectRoot: Option<string>, failing: set<string>)
    returns (r: Option<(nat, seq<string>)>)
    requires store.Valid()
    modifies index, store
    ensures index.counters == old(index.counters) && index.project == old(index.project)
    ensures store.Valid() && store.regExists == old(store.regExists)
    ensures store.images == old(store.images) && store.videos == old(store.videos)
    ensures SameContents(old(store.files), store.files)
    ensures OutsideKept(old(index.images), index.images, auditId)
    ensures var recs := ImagesForAudit(old(index.images), auditId);
      recs == [] ==> r == Some((0, [EmptyAuditMessage])) && index.images == old(index.images)
                     && store.files == old(store.files)
    ensures var recs := ImagesForAudit(old(index.images), auditId);
      recs != [] && (!SortableNrs(recs) || ProjectIdValue(old(index.project)).None?) ==>
        r.None? && index.images == old(index.images) && store.files == old(store.files)
    ensures var recs := ImagesForAudit(old(index.images), auditId);
      recs != [] && r.Some? ==>
        r.value.0 == |recs| && (forall e :: e in r.value.1 ==> StartsWith(e, RenameErrorPrefix))
        && ProjectIdValue(old(index.project)).Some?
        && AuditRenumbered(old(index.images), index.images, auditId,
                           GenFor(ProjectIdValue(old(index.project)).value, auditId))
  {
    var recs := ImagesForAudit(index.images, auditId);
    if recs == [] {
      return Some((0, [EmptyAuditMessage]));
    }
    if !SortableNrs(recs) {
      return None;
    }
    var order := ReindexOrder(index.images, auditId);
    var projectId := ProjectIdValue(index.project);
    if projectId.None? {
      return None;
    }
    ReindexOrderIsStableSort(index.images, auditId);
    ghost var orig := index.images;
    var naming := Naming(projectId.value, auditId, projectRoot, failing, GenFor(projectId.value, auditId));
    GenForNames(projectId.value, auditId);
    var ok, errors := TempPass(index, store, order, naming);
    OrderKeepsOutside(orig, index.images, order, auditId);
    if !ok {
      return None;
    }
    ghost var mid := index.images;
    ghost var midFiles := store.files;
    var ok2, errors2 := FinalPass(index, store, order, naming, orig);
    SameContentsTrans(old(store.files), midFiles, store.files);
    OrderKeepsOutside(orig, index.images, order, auditId);
    if !ok2 {
      return None;
    }
    assert AuditRenumbered(orig, index.images, auditId, naming.gen);
    r := Some((|recs|, errors + errors2));
  }

  /** Records outside the order are the records outside the audit. */
  lemma OrderKeepsOutside(before: seq<Dict>, after: seq<Dict>, order: seq<nat>, auditId: string)
    requires order == ReindexOrder(before, auditId) && |after| == |before|
    requires forall p :: 0 <= p < |after| && p !in order ==> after[p] == before[p]
    ensures OutsideKept(before, after, auditId)
  {
    ReindexOrderIsStableSort(before, auditId);
  }

  /** A renumbered record stays in its audit and carries the number k+1. */
  lemma RenumberedFacts(before: Dict, after: Dict, k: nat, auditId: string, gen: NameGen)
    requires Renumbered(before, after, k, gen) && InAudit(before, auditId)
    ensures InAudit(after, auditId) && Get(after, "nr", Null) == Str(Format03(k + 1))
  {
    assert KeyKept(before, after, "audit_id");
  }

  /** The number a record of the audit gets: one more than its place in the order. */
  lemma NumberAt(before: seq<Dict>, after: seq<Dict>, auditId: string, gen: NameGen, p: nat) returns (k: nat)
    requires AuditRenumbered(before, after, auditId, gen)
    requires p < |before| && InAudit(before[p], auditId)
    ensures k < |ImagesForAudit(before, auditId)| && ReindexOrder(before, auditId)[k] == p
    ensures InAudit(after[p], auditId) && Get(after[p], "nr", Null) == Str(Format03(k + 1))
  {
    var order := ReindexOrder(before, auditId);
    OrderCoversAudit(before, auditId);
    assert p in order;
    k :| 0 <= k < |order| && order[k] == p;
    RenumberedFacts(before[p], after[p], k, auditId, gen);
  }

  /**
   * After a successful reindex the audit's records stay in the audit and
   * carry the numbers 001 ... n, each exactly once.
   */
  lemma ReindexNumbersOneToN(before: seq<Dict>, after: seq<Dict>, auditId: string, gen: NameGen)
    requires AuditRenumbered(before, after, auditId, gen)
    ensures var n := |ImagesForAudit(before, auditId)|;
      forall p :: 0 <= p < |before| && InAudit(before[p], auditId) ==>
        InAudit(after[p], auditId) && exists k :: 1 <= k <= n && Get(after[p], "nr", Null) == Str(Format03(k))
    ensures forall p, q :: 0 <= p < q < |before| && InAudit(before[p], auditId) && InAudit(before[q], auditId) ==>
      Get(after[p], "nr", Null) != Get(after[q], "nr", Null)
  {
    var n := |ImagesForAudit(before, auditId)|;
    forall p | 0 <= p < |before| && InAudit(before[p], auditId)
      ensures InAudit(after[p], auditId) && exists k :: 1 <= k <= n && Get(after[p], "nr", Null) == Str(Format03(k))
    {
      var k := NumberAt(before, after, auditId, gen, p);
      assert 1 <= k + 1 <= n;
    }
    forall p, q | 0 <= p < q < |before| && InAudit(before[p], auditId) && InAudit(before[q], auditId)
      ensures Get(after[p], "nr", Null) != Get(after[q], "nr", Null)
    {
      var j := NumberAt(before, after, auditId, gen, p);
      var k := NumberAt(before, after, auditId, gen, q);
      NumbersDiffer(j, k);
    }
  }
}
