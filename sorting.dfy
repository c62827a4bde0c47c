/**
 * The audit ordering of Fehlerbild records: the hierarchical sort key
 * (vehicle area, system domain, BI, status, number) and the sort-mode
 * dispatcher. Python's `list.sort` is stable, also with `reverse=True`;
 * it is specified here by the unique order that sorts positions by
 * (key, original position), with only the key comparison reversed.
 */
module Sorting {
  import opened Wrappers
  import opened Text
  import opened Json
  import opened Records

  const VehicleAreaOptions: seq<string> := [
    "Front_Exterieur", "Rechte_Seite", "Heck_Exterieur", "Linke_Seite", "Dach",
    "Interieur_Vorne", "Interieur_Hinten", "Motorraum", "Unterboden"]

  const SystemDomainOptions: seq<string> := [
    "Karosserie", "Lack", "Exterieur", "Interieur", "Elektrik",
    "Antrieb", "Fahrwerk", "Software", "Sonstige"]

  /** The canonical BI order, most critical after the unclassified entry. */
  const SortOrderBi: seq<string> := [
    "BI0-tbd.", "BI1", "BI2", "BI3", "BI4", "BI5", "BI6-ja", "BI6", "BI6-nein", "BI7", "BI8"]

  /** `rec.get("fehler", {}) or {}`. */
  function Fehler(rec: Dict): Dict
  {
    DictOr(Get(rec, "fehler", Obj(map[])))
  }

  /** The first position of `x` in `xs`. */
  function FirstIndex(xs: seq<string>, x: string): (r: nat)
    requires x in xs
    ensures r < |xs| && xs[r] == x
    ensures forall j :: 0 <= j < r ==> xs[j] != x
  {
    if xs[0] == x then 0 else 1 + FirstIndex(xs[1..], x)
  }

  /** `options.index(v)`, with `missing` where Python raises `ValueError`. */
  function Rank(v: Json, options: seq<string>, missing: nat): nat
  {
    if InOptions(v, options) then FirstIndex(options, v.s) else missing
  }

  /** A rank is the first listed position of the value, or `missing` for a value not listed. */
  lemma RankIsPosition(v: Json, options: seq<string>, missing: nat)
    ensures InOptions(v, options) ==>
              Rank(v, options, missing) < |options| && Str(options[Rank(v, options, missing)]) == v
              && forall j :: 0 <= j < Rank(v, options, missing) ==> Str(options[j]) != v
    ensures !InOptions(v, options) ==> Rank(v, options, missing) == missing
  {
  }

  // ------------------------------------------------------------ the audit key

  function AreaRank(rec: Dict): nat
  {
    Rank(Get(Fehler(rec), "vehicle_area", Str("Interieur_Vorne")), VehicleAreaOptions, |VehicleAreaOptions|)
  }

  function DomainRank(rec: Dict): nat
  {
    Rank(Get(Fehler(rec), "system_domain", Str("Sonstige")), SystemDomainOptions, |SystemDomainOptions|)
  }

  function BiRank(rec: Dict): nat
  {
    Rank(Get(Fehler(rec), "BI_alt", Str("BI0-tbd.")), SortOrderBi, 0)
  }

  /** Whether the record's case status is "Closed" (a missing status reads as "Open"). */
  predicate IsClosed(rec: Dict)
  {
    Get(Fehler(rec), "CaseStatus", Str("Open")) == Str("Closed")
  }

  /** `int(rec.get("nr", "999"))`, 9999 where `int` raises. */
  function NrRank(rec: Dict): int
  {
    match PyInt(Get(rec, "nr", Str("999")))
    case Some(n) => n
    case None => 9999
  }

  /** `fehlerbild_sort_key`: the tuple (area, domain, BI, status, nr). */
  function FehlerbildKey(rec: Dict): seq<int>
  {
    [AreaRank(rec), DomainRank(rec), BiRank(rec), if IsClosed(rec) then 1 else 0, NrRank(rec)]
  }

  /**
   * What the key ranks first: areas and domains by their list position,
   * every unknown value after all known ones (a missing area reads as
   * "Interieur_Vorne", a missing domain as "Sonstige").
   */
  lemma AreaDomainRanks(rec: Dict)
    ensures var f := Fehler(rec);
      var area := Get(f, "vehicle_area", Str("Interieur_Vorne"));
      var domain := Get(f, "system_domain", Str("Sonstige"));
      (AreaRank(rec) < 9 <==> InOptions(area, VehicleAreaOptions))
      && (AreaRank(rec) < 9 ==> Str(VehicleAreaOptions[AreaRank(rec)]) == area)
      && (DomainRank(rec) < 9 <==> InOptions(domain, SystemDomainOptions))
      && (DomainRank(rec) < 9 ==> Str(SystemDomainOptions[DomainRank(rec)]) == domain)
  {
    var f := Fehler(rec);
    RankIsPosition(Get(f, "vehicle_area", Str("Interieur_Vorne")), VehicleAreaOptions, 9);
    RankIsPosition(Get(f, "system_domain", Str("Sonstige")), SystemDomainOptions, 9);
  }

  /** An unknown BI ranks with the unclassified "BI0-tbd.", a known one at its position. */
  lemma BiRanks(rec: Dict)
    ensures var bi := Get(Fehler(rec), "BI_alt", Str("BI0-tbd."));
      (!InOptions(bi, SortOrderBi) ==> BiRank(rec) == 0)
      && (InOptions(bi, SortOrderBi) ==> BiRank(rec) < |SortOrderBi| && Str(SortOrderBi[BiRank(rec)]) == bi)
  {
    RankIsPosition(Get(Fehler(rec), "BI_alt", Str("BI0-tbd.")), SortOrderBi, 0);
  }

  /** The fourth component is 1 exactly for a closed case. */
  lemma StatusRanks(rec: Dict)
    ensures FehlerbildKey(rec)[3] == 1 <==> Get(Fehler(rec), "CaseStatus", Str("Open")) == Str("Closed")
    ensures FehlerbildKey(rec)[3] == 0 <==> Get(Fehler(rec), "CaseStatus", Str("Open")) != Str("Closed")
  {
  }

  /** A missing number ranks as 999, one `int` cannot read as 9999. */
  lemma NrRanksDefaults(rec: Dict)
    ensures "nr" !in rec ==> NrRank(rec) == 999
    ensures PyInt(Get(rec, "nr", Str("999"))).None? ==> NrRank(rec) == 9999
  {
    MissingNrParses();
  }

  /** The default text "999" reads as the number 999. */
  lemma MissingNrParses()
    ensures PyInt(Str("999")) == Some(999)
  {
    ParseDigits("999");
    NinesValue();
  }

  /** The digits "999" have the value 999. */
  lemma NinesValue()
    ensures DigitsValue("999") == 999
  {
    assert "999"[..2] == "99" && "99"[..1] == "9" && "9"[..0] == "";
  }

  /** A number written by `Format03` ranks by its value. */
  lemma NrRankFormatted(rec: Dict, n: int)
    requires Get(rec, "nr", Str("999")) == Str(Format03(n))
    ensures NrRank(rec) == n
  {
    Format03RoundTrip(n);
  }

  // ------------------------------------------------------------ the mode keys

  /** A string as the sequence of its code points, which Python compares lexicographically. */
  function Codes(s: string): (r: seq<int>)
    ensures |r| == |s| && forall i :: 0 <= i < |s| ==> r[i] == s[i] as int
  {
    seq(|s|, i requires 0 <= i < |s| => s[i] as int)
  }

  /** The text of `rec.get("nr", "")`; a stored number is compared by its decimal text. */
  function NrKey(rec: Dict): seq<int>
  {
    var v := Get(rec, "nr", Str(""));
    Codes(if v.Str? then v.s else PyStr(v))
  }

  /** `_bi_index`: `BI_alt or BI or "BI0-tbd."` ranked in the BI order, unknown values last. */
  function BiIndexKey(rec: Dict): seq<int>
  {
    var f := Fehler(rec);
    [Rank(Or(Or(Get(f, "BI_alt", Null), Get(f, "BI", Null)), Str("BI0-tbd.")), SortOrderBi, |SortOrderBi|)]
  }

  /** `fehler.get("Fehlerort", "").lower()`. */
  function FehlerortKey(rec: Dict): seq<int>
  {
    var v := Get(Fehler(rec), "Fehlerort", Str(""));
    Codes(Lower(if v.Str? then v.s else PyStr(v)))
  }

  function StatusOpenFirstKey(rec: Dict): seq<int> { [if !IsClosed(rec) then 0 else 1] }

  function StatusClosedFirstKey(rec: Dict): seq<int> { [if IsClosed(rec) then 0 else 1] }

  /** `bool(fehler.get("Nacharbeit_done", False))`. */
  predicate NacharbeitDone(rec: Dict)
  {
    Truthy(Get(Fehler(rec), "Nacharbeit_done", Bool(false)))
  }

  function NacharbeitFirstKey(rec: Dict): seq<int> { [if NacharbeitDone(rec) then 0 else 1] }

  function NoNacharbeitFirstKey(rec: Dict): seq<int> { [if !NacharbeitDone(rec) then 0 else 1] }

  // ------------------------------------------------------------ stable sorting

  /** Python's `<` on sequences: lexicographic, a proper prefix first. */
  predicate LexLess(a: seq<int>, b: seq<int>)
  {
    if a == [] then b != []
    else if b == [] then false
    else a[0] < b[0] || (a[0] == b[0] && LexLess(a[1..], b[1..]))
  }

  lemma {:induction false} LexIrreflexive(a: seq<int>)
    ensures !LexLess(a, a)
  {
    if a != [] {
      LexIrreflexive(a[1..]);
    }
  }

  lemma {:induction false} LexTransitive(a: seq<int>, b: seq<int>, c: seq<int>)
    ensures LexLess(a, b) && LexLess(b, c) ==> LexLess(a, c)
  {
    if a != [] && b != [] && c != [] {
      LexTransitive(a[1..], b[1..], c[1..]);
    }
  }

  lemma {:induction false} LexTotal(a: seq<int>, b: seq<int>)
    ensures a == b || LexLess(a, b) || LexLess(b, a)
  {
    if a != [] && b != [] {
      LexTotal(a[1..], b[1..]);
      if a[0] == b[0] && a[1..] == b[1..] {
        assert a == [a[0]] + a[1..] && b == [b[0]] + b[1..];
      }
    }
  }

  /** Position `p` goes before position `q`: by key (reversed on request), ties by position. */
  predicate Precedes(keys: seq<seq<int>>, reverse: bool, p: nat, q: nat)
    requires p < |keys| && q < |keys|
  {
    if keys[p] == keys[q] then p < q
    else if reverse then LexLess(keys[q], keys[p])
    else LexLess(keys[p], keys[q])
  }

  lemma PrecedesOrder(keys: seq<seq<int>>, reverse: bool, p: nat, q: nat, o: nat)
    requires p < |keys| && q < |keys| && o < |keys|
    ensures !Precedes(keys, reverse, p, p)
    ensures p != q ==> Precedes(keys, reverse, p, q) || Precedes(keys, reverse, q, p)
    ensures Precedes(keys, reverse, p, q) && Precedes(keys, reverse, q, o) ==> Precedes(keys, reverse, p, o)
  {
    LexIrreflexive(keys[p]);
    LexTotal(keys[p], keys[q]);
    LexTransitive(keys[p], keys[q], keys[o]);
    LexTransitive(keys[o], keys[q], keys[p]);
    LexTransitive(keys[q], keys[p], keys[q]);
    LexTransitive(keys[q], keys[o], keys[q]);
    LexTransitive(keys[p], keys[q], keys[p]);
    LexTransitive(keys[o], keys[p], keys[o]);
    LexTransitive(keys[p], keys[o], keys[p]);
    LexIrreflexive(keys[q]);
  }

  predicate InRange(keys: seq<seq<int>>, s: seq<nat>)
  {
    forall i :: 0 <= i < |s| ==> s[i] < |keys|
  }

  predicate Ordered(keys: seq<seq<int>>, reverse: bool, s: seq<nat>)
    requires InRange(keys, s)
  {
    forall i, j :: 0 <= i < j < |s| ==> Precedes(keys, reverse, s[i], s[j])
  }

  /** Insertion of one position into an ordered list of positions. */
  function Insert(keys: seq<seq<int>>, reverse: bool, p: nat, s: seq<nat>): (r: seq<nat>)
    requires p < |keys| && InRange(keys, s)
    ensures InRange(keys, r) && |r| == |s| + 1
  {
    if s == [] then [p]
    else if Precedes(keys, reverse, p, s[0]) then [p] + s
    else [s[0]] + Insert(keys, reverse, p, s[1..])
  }

  /** Insertion adds exactly the inserted position. */
  lemma {:induction false} InsertPerm(keys: seq<seq<int>>, reverse: bool, p: nat, s: seq<nat>)
    requires p < |keys| && InRange(keys, s)
    ensures multiset(Insert(keys, reverse, p, s)) == multiset(s) + multiset{p}
  {
    if s != [] && !Precedes(keys, reverse, p, s[0]) {
      InsertPerm(keys, reverse, p, s[1..]);
      assert s == [s[0]] + s[1..];
    }
  }

  lemma {:induction false} InsertOrdered(keys: seq<seq<int>>, reverse: bool, p: nat, s: seq<nat>)
    requires p < |keys| && InRange(keys, s) && Ordered(keys, reverse, s) && p !in s
    ensures Ordered(keys, reverse, Insert(keys, reverse, p, s))
  {
    if s != [] {
      if Precedes(keys, reverse, p, s[0]) {
        forall j | 0 <= j < |s|
          ensures Precedes(keys, reverse, p, s[j])
        {
          if j > 0 {
            PrecedesOrder(keys, reverse, p, s[0], s[j]);
          }
        }
        OrderedCons(keys, reverse, p, s);
      } else {
        var t := Insert(keys, reverse, p, s[1..]);
        assert Ordered(keys, reverse, t) by {
          InsertOrdered(keys, reverse, p, s[1..]);
        }
        forall j | 0 <= j < |t|
          ensures Precedes(keys, reverse, s[0], t[j])
        {
          InsertPerm(keys, reverse, p, s[1..]);
          assert t[j] in multiset(t);
          if t[j] == p {
            PrecedesOrder(keys, reverse, p, s[0], p);
          } else {
            assert t[j] in s[1..];
          }
        }
        OrderedCons(keys, reverse, s[0], t);
      }
    }
  }

  /** An ordered list stays ordered behind a position that precedes all of it. */
  lemma OrderedCons(keys: seq<seq<int>>, reverse: bool, x: nat, t: seq<nat>)
    requires x < |keys| && InRange(keys, t) && Ordered(keys, reverse, t)
    requires forall j :: 0 <= j < |t| ==> Precedes(keys, reverse, x, t[j])
    ensures InRange(keys, [x] + t) && Ordered(keys, reverse, [x] + t)
  {
    var r := [x] + t;
    forall i, j | 0 <= i < j < |r|
      ensures Precedes(keys, reverse, r[i], r[j])
    {
      if i > 0 {
        assert r[i] == t[i - 1] && r[j] == t[j - 1];
      }
    }
  }

  /** The positions `0 .. n-1`, inserted one after another. */
  function Order(keys: seq<seq<int>>, reverse: bool, n: nat): (r: seq<nat>)
    requires n <= |keys|
    ensures InRange(keys, r) && |r| == n
  {
    if n == 0 then []
    else
      Insert(keys, reverse, n - 1, Order(keys, reverse, n - 1))
  }

  /** Every position in `s` is below `m`. */
  predicate AllBelow(s: seq<nat>, m: nat)
  {
    forall v: nat :: v in s ==> v < m
  }

  /** The order holds only positions below `n`. */
  lemma {:induction false} OrderBelow(keys: seq<seq<int>>, reverse: bool, n: nat)
    requires n <= |keys|
    ensures AllBelow(Order(keys, reverse, n), n)
  {
    if n > 0 {
      var s := Order(keys, reverse, n - 1);
      var r := Insert(keys, reverse, n - 1, s);
      assert Order(keys, reverse, n) == r;
      OrderBelow(keys, reverse, n - 1);
      InsertPerm(keys, reverse, n - 1, s);
      BelowStep(s, r, n - 1);
    }
  }

  lemma BelowStep(s: seq<nat>, r: seq<nat>, m: nat)
    requires AllBelow(s, m) && multiset(r) == multiset(s) + multiset{m}
    ensures AllBelow(r, m + 1)
  {
    forall v: nat | v in r
      ensures v < m + 1
    {
      assert v in multiset(r);
      if v != m {
        assert v in multiset(s);
        assert v in s;
      }
    }
  }

  lemma {:induction false} OrderOrdered(keys: seq<seq<int>>, reverse: bool, n: nat)
    requires n <= |keys|
    ensures Ordered(keys, reverse, Order(keys, reverse, n))
  {
    if n > 0 {
      OrderOrdered(keys, reverse, n - 1);
      OrderFresh(keys, reverse, n - 1);
      InsertOrdered(keys, reverse, n - 1, Order(keys, reverse, n - 1));
    }
  }

  /** The next position to insert is not yet in the order. */
  lemma OrderFresh(keys: seq<seq<int>>, reverse: bool, n: nat)
    requires n < |keys|
    ensures n !in Order(keys, reverse, n)
  {
    OrderBelow(keys, reverse, n);
    assert AllBelow(Order(keys, reverse, n), n);
  }

  /** Every position below n is inserted, so the order lists each record. */
  lemma {:induction false} OrderCovers(keys: seq<seq<int>>, reverse: bool, n: nat)
    requires n <= |keys|
    ensures forall v: nat :: v < n ==> v in Order(keys, reverse, n)
  {
    if n > 0 {
      var s := Order(keys, reverse, n - 1);
      var r := Insert(keys, reverse, n - 1, s);
      assert Order(keys, reverse, n) == r;
      OrderCovers(keys, reverse, n - 1);
      InsertKeeps(keys, reverse, n - 1, s);
      CoversStep(s, r, n - 1);
    }
  }

  lemma CoversStep(s: seq<nat>, r: seq<nat>, m: nat)
    requires forall v: nat :: v < m ==> v in s
    requires m in r && forall v :: v in s ==> v in r
    ensures forall v: nat :: v < m + 1 ==> v in r
  {
  }

  /** Insertion loses no element and adds the inserted one. */
  lemma InsertKeeps(keys: seq<seq<int>>, reverse: bool, p: nat, s: seq<nat>)
    requires p < |keys| && InRange(keys, s)
    ensures p in Insert(keys, reverse, p, s)
    ensures forall v :: v in s ==> v in Insert(keys, reverse, p, s)
  {
    var r := Insert(keys, reverse, p, s);
    InsertPerm(keys, reverse, p, s);
    assert p in multiset(r);
    forall v | v in s
      ensures v in r
    {
      assert v in multiset(s);
      assert v in multiset(r);
    }
  }

  /** The records at the given positions. */
  function Pick(records: seq<Dict>, s: seq<nat>): (r: seq<Dict>)
    requires forall i :: 0 <= i < |s| ==> s[i] < |records|
  {
    if s == [] then [] else [records[s[0]]] + Pick(records, s[1..])
  }

  lemma {:induction false} PickAt(records: seq<Dict>, s: seq<nat>)
    requires forall i :: 0 <= i < |s| ==> s[i] < |records|
    ensures |Pick(records, s)| == |s| && forall i :: 0 <= i < |s| ==> Pick(records, s)[i] == records[s[i]]
  {
    if s != [] {
      PickAt(records, s[1..]);
    }
  }

  lemma {:induction false} PickInsert(records: seq<Dict>, keys: seq<seq<int>>, reverse: bool, p: nat, s: seq<nat>)
    requires |keys| == |records| && p < |keys| && InRange(keys, s)
    ensures multiset(Pick(records, Insert(keys, reverse, p, s))) == multiset(Pick(records, s)) + multiset{records[p]}
  {
    if s != [] && !Precedes(keys, reverse, p, s[0]) {
      PickInsert(records, keys, reverse, p, s[1..]);
      assert Pick(records, s) == [records[s[0]]] + Pick(records, s[1..]);
    }
  }

  lemma {:induction false} PickOrder(records: seq<Dict>, keys: seq<seq<int>>, reverse: bool, n: nat)
    requires |keys| == |records| && n <= |keys|
    ensures multiset(Pick(records, Order(keys, reverse, n))) == multiset(records[..n])
  {
    if n > 0 {
      var s := Order(keys, reverse, n - 1);
      var t := Insert(keys, reverse, n - 1, s);
      assert Order(keys, reverse, n) == t;
      var a := multiset(Pick(records, t));
      var b := multiset(Pick(records, s));
      var c := multiset(records[..n - 1]);
      var d := multiset(records[..n]);
      PickOrder(records, keys, reverse, n - 1);
      PickInsert(records, keys, reverse, n - 1, s);
      PrefixSnoc(records, n);
      assert a == b + multiset{records[n - 1]} && b == c && d == c + multiset{records[n - 1]};
      assert a == d;
    }
  }

  lemma PrefixSnoc<T>(xs: seq<T>, n: nat)
    requires 0 < n <= |xs|
    ensures multiset(xs[..n]) == multiset(xs[..n - 1]) + multiset{xs[n - 1]}
  {
    assert xs[..n] == xs[..n - 1] + [xs[n - 1]];
  }

  /** The original position of each element of the sorted list. */
  function SortPermutation(records: seq<Dict>, key: Dict -> seq<int>, reverse: bool): (ord: seq<nat>)
    ensures |ord| == |records| && forall i :: 0 <= i < |ord| ==> ord[i] < |records|
  {
    Order(MapEach(records, key), reverse, |records|)
  }

  /** The permutation lists every position of the input. */
  lemma SortPermutationCovers(records: seq<Dict>, key: Dict -> seq<int>, reverse: bool)
    ensures forall v :: 0 <= v < |records| ==> v in SortPermutation(records, key, reverse)
  {
    OrderCovers(MapEach(records, key), reverse, |records|);
  }

  /** `sorted(records, key=key, reverse=reverse)`. */
  function SortBy(records: seq<Dict>, key: Dict -> seq<int>, reverse: bool): seq<Dict>
  {
    Pick(records, SortPermutation(records, key, reverse))
  }

  /**
   * `SortBy` is a stable sort: a permutation of the input, ordered by key
   * (descending for `reverse`), whose equal-key elements keep their
   * original relative order, also when reversed.
   */
  lemma SortByIsStableSort(records: seq<Dict>, key: Dict -> seq<int>, reverse: bool)
    ensures var r := SortBy(records, key, reverse);
      var ord := SortPermutation(records, key, reverse);
      |r| == |records| && multiset(r) == multiset(records)
      && (forall i :: 0 <= i < |r| ==> r[i] == records[ord[i]])
      && (forall i, j :: 0 <= i < j < |r| ==> ord[i] != ord[j])
      && (forall i, j :: 0 <= i < j < |r| ==>
            if reverse then !LexLess(key(r[i]), key(r[j])) else !LexLess(key(r[j]), key(r[i])))
      && (forall i, j :: 0 <= i < j < |r| && key(r[i]) == key(r[j]) ==> ord[i] < ord[j])
  {
    var keys := MapEach(records, key);
    var ord := SortPermutation(records, key, reverse);
    OrderOrdered(keys, reverse, |records|);
    PickOrder(records, keys, reverse, |records|);
    PickAt(records, ord);
    assert records[..|records|] == records;
    forall i, j | 0 <= i < j < |ord|
      ensures ord[i] != ord[j]
      ensures if reverse then !LexLess(keys[ord[i]], keys[ord[j]]) else !LexLess(keys[ord[j]], keys[ord[i]])
    {
      assert Precedes(keys, reverse, ord[i], ord[j]);
      PrecedesOrder(keys, reverse, ord[i], ord[j], ord[i]);
      LexIrreflexive(keys[ord[i]]);
      LexTransitive(keys[ord[i]], keys[ord[j]], keys[ord[i]]);
    }
  }

  // ------------------------------------------------------------ the dispatcher

  /** The orders `sort_fehlerbilder_with_mode` can apply. */
  datatype Mode =
    | AuditStandard
    | NrAscending
    | NrDescending
    | BiCriticalFirst
    | BiUncriticalFirst
    | FehlerortAz
    | FehlerortZa
    | StatusOpenFirst
    | StatusClosedFirst
    | NacharbeitFirst
    | NoNacharbeitFirst

  const DefaultSortingMode: string := "Audit-Standard (Bereich → System → BI)"

  /** The labels the sort-mode selectbox offers. */
  const SortingModeOptions: seq<string> := [
    "Audit-Standard (Bereich → System → BI)",
    "Nr (aufsteigend)",
    "Nr (absteigend)",
    "BI (kritisch zuerst)",
    "BI (unkritisch zuerst)",
    "Fehlerort (A→Z)",
    "Fehlerort (Z→A)",
    "Status Open (zuerst)",
    "Status Closed (zuerst)",
    "Nacharbeit = Ja (zuerst)",
    "Nacharbeit = Nein (zuerst)"]

  /** The branch labels of the dispatcher; anything else takes the default order. */
  function ModeOf(name: string): Mode
  {
    if name == "Audit-Standard (Bereich → System → BI)" then AuditStandard
    else if name == "Nr (aufsteigend)" then NrAscending
    else if name == "Nr (absteigend)" then NrDescending
    else if name == "BI (kritisch zuerst)" then BiCriticalFirst
    else if name == "BI (unkritisch zuerst)" then BiUncriticalFirst
    else if name == "Fehlerort (A→Z)" then FehlerortAz
    else if name == "Fehlerort (Z→A)" then FehlerortZa
    else if name == "Status (Open zuerst)" then StatusOpenFirst
    else if name == "Status (Closed zuerst)" then StatusClosedFirst
    else if name == "Nacharbeit = Ja zuerst" then NacharbeitFirst
    else if name == "Nacharbeit = Nein zuerst" then NoNacharbeitFirst
    else AuditStandard
  }

  function ModeKey(m: Mode): Dict -> seq<int>
  {
    match m
    case AuditStandard => FehlerbildKey
    case NrAscending => NrKey
    case NrDescending => NrKey
    case BiCriticalFirst => BiIndexKey
    case BiUncriticalFirst => BiIndexKey
    case FehlerortAz => FehlerortKey
    case FehlerortZa => FehlerortKey
    case StatusOpenFirst => StatusOpenFirstKey
    case StatusClosedFirst => StatusClosedFirstKey
    case NacharbeitFirst => NacharbeitFirstKey
    case NoNacharbeitFirst => NoNacharbeitFirstKey
  }

  predicate ModeReverse(m: Mode)
  {
    m == NrDescending || m == BiUncriticalFirst || m == FehlerortZa
  }

  /** `sort_fehlerbilder_with_mode`: a new sorted list; a missing or empty mode means the default. */
  function SortWithMode(records: seq<Dict>, mode: Option<string>): seq<Dict>
  {
    if records == [] then []
    else
      var name := if mode.None? || mode.value == "" then DefaultSortingMode else mode.value;
      var m := ModeOf(name);
      SortBy(records, ModeKey(m), ModeReverse(m))
  }

  /**
   * Whatever the mode, the result is a permutation of the input, sorted by
   * the mode's key with ties kept in input order.
   */
  lemma SortWithModeIsStableSort(records: seq<Dict>, mode: Option<string>)
    ensures var r := SortWithMode(records, mode);
      var name := if mode.None? || mode.value == "" then DefaultSortingMode else mode.value;
      var key := ModeKey(ModeOf(name));
      var ord := SortPermutation(records, key, ModeReverse(ModeOf(name)));
      |r| == |records| && multiset(r) == multiset(records)
      && (forall i :: 0 <= i < |r| ==> r[i] == records[ord[i]])
      && (forall i, j :: 0 <= i < j < |r| ==> ord[i] != ord[j])
      && (forall i, j :: 0 <= i < j < |r| ==>
           if ModeReverse(ModeOf(name)) then !LexLess(key(r[i]), key(r[j])) else !LexLess(key(r[j]), key(r[i])))
      && (forall i, j :: 0 <= i < j < |r| && key(r[i]) == key(r[j]) ==> ord[i] < ord[j])
  {
    if records != [] {
      var name := if mode.None? || mode.value == "" then DefaultSortingMode else mode.value;
      SortByIsStableSort(records, ModeKey(ModeOf(name)), ModeReverse(ModeOf(name)));
    }
  }

  /**
   * The four status and Nacharbeit labels the selectbox offers match no
   * branch of the dispatcher, so they sort in the default audit order.
   */
  lemma OfferedStatusModesFallBack(records: seq<Dict>, k: nat)
    requires 7 <= k < |SortingModeOptions|
    ensures SortWithMode(records, Some(SortingModeOptions[k])) == SortBy(records, FehlerbildKey, false)
            || records == []
    ensures SortWithMode(records, Some(SortingModeOptions[k])) == SortWithMode(records, None)
  {
    OfferedStatusLabelsUnmatched(k);
    assert ModeOf(DefaultSortingMode) == AuditStandard;
  }

  /** The status and Nacharbeit labels offered differ from every label the dispatcher tests. */
  lemma OfferedStatusLabelsUnmatched(k: nat)
    requires 7 <= k < |SortingModeOptions|
    ensures ModeOf(SortingModeOptions[k]) == AuditStandard
  {
    var name := SortingModeOptions[k];
    assert name[..6] == "Status" || name[..10] == "Nacharbeit";
    assert name[|name| - 1] == ')';
  }

  /**
   * The dispatcher as the selectbox evidently intends it: the four status and
   * Nacharbeit labels also select their orders, spelled as they are offered.
   */
  function IntendedModeOf(name: string): Mode
  {
    if name == "Status Open (zuerst)" then StatusOpenFirst
    else if name == "Status Closed (zuerst)" then StatusClosedFirst
    else if name == "Nacharbeit = Ja (zuerst)" then NacharbeitFirst
    else if name == "Nacharbeit = Nein (zuerst)" then NoNacharbeitFirst
    else ModeOf(name)
  }

  /** `sort_fehlerbilder_with_mode` with the intended dispatcher. */
  function IntendedSortWithMode(records: seq<Dict>, mode: Option<string>): seq<Dict>
  {
    if records == [] then []
    else
      var name := if mode.None? || mode.value == "" then DefaultSortingMode else mode.value;
      var m := IntendedModeOf(name);
      SortBy(records, ModeKey(m), ModeReverse(m))
  }

  /** The place of each mode in the list of offered labels. */
  function ModeIndex(m: Mode): nat
  {
    match m
    case AuditStandard => 0
    case NrAscending => 1
    case NrDescending => 2
    case BiCriticalFirst => 3
    case BiUncriticalFirst => 4
    case FehlerortAz => 5
    case FehlerortZa => 6
    case StatusOpenFirst => 7
    case StatusClosedFirst => 8
    case NacharbeitFirst => 9
    case NoNacharbeitFirst => 10
  }

  /** With the intended dispatcher every offered label selects its own order, and no two labels the same one. */
  lemma OfferedLabelsSelectTheirModes(k: nat)
    requires k < |SortingModeOptions|
    ensures ModeIndex(IntendedModeOf(SortingModeOptions[k])) == k
  {
    if k >= 7 {
      OfferedStatusLabelsUnmatched(k);
    }
  }

  /** No closed case comes before an open one. */
  predicate OpenFirst(r: seq<Dict>)
  {
    forall i, j :: 0 <= i < j < |r| && IsClosed(r[i]) ==> IsClosed(r[j])
  }

  /** With the intended dispatcher, "Status Open (zuerst)" reorders the records so that every open case comes before every closed one. */
  lemma IntendedOpenFirst(records: seq<Dict>)
    ensures var r := IntendedSortWithMode(records, Some("Status Open (zuerst)"));
      multiset(r) == multiset(records) && OpenFirst(r)
  {
    IntendedOpenDispatch(records);
    OpenBeforeClosed(records);
  }

  lemma IntendedOpenDispatch(records: seq<Dict>)
    ensures IntendedSortWithMode(records, Some("Status Open (zuerst)")) == SortBy(records, StatusOpenFirstKey, false)
  {
    var m := IntendedModeOf("Status Open (zuerst)");
    assert m == StatusOpenFirst;
    assert ModeKey(m) == StatusOpenFirstKey && !ModeReverse(m);
    if records == [] {
      assert SortPermutation(records, StatusOpenFirstKey, false) == [];
    } else {
      assert IntendedSortWithMode(records, Some("Status Open (zuerst)")) == SortBy(records, ModeKey(m), ModeReverse(m));
    }
  }

  lemma OpenBeforeClosed(records: seq<Dict>)
    ensures var r := SortBy(records, StatusOpenFirstKey, false);
      multiset(r) == multiset(records) && OpenFirst(r)
  {
    SortByIsStableSort(records, StatusOpenFirstKey, false);
    var r := SortBy(records, StatusOpenFirstKey, false);
    forall i, j | 0 <= i < j < |r| && IsClosed(r[i])
      ensures IsClosed(r[j])
    {
      assert !LexLess(StatusOpenFirstKey(r[j]), StatusOpenFirstKey(r[i]));
    }
  }

  /** The default order sorts by area first: a record in an earlier listed area never follows one in a later area. */
  lemma DefaultSortsByArea(records: seq<Dict>)
    ensures var r := SortWithMode(records, None);
      forall i, j :: 0 <= i < j < |r| ==> AreaRank(r[i]) <= AreaRank(r[j])
  {
    SortWithModeIsStableSort(records, None);
    var r := SortWithMode(records, None);
    assert ModeOf(DefaultSortingMode) == AuditStandard;
    forall i, j | 0 <= i < j < |r|
      ensures AreaRank(r[i]) <= AreaRank(r[j])
    {
      AreaLeads(r[i], r[j]);
    }
  }

  /** Two records in key order are in area order: the area is the key's first component. */
  lemma AreaLeads(a: Dict, b: Dict)
    requires !LexLess(FehlerbildKey(b), FehlerbildKey(a))
    ensures AreaRank(a) <= AreaRank(b)
  {
  }
}
