/**
 * The JSON values stored in the project index and the Python dict
 * operations the source applies to them (`get`, `setdefault`, `or`,
 * truthiness, `str(...)`, `int(...)`).
 */
module Json {
  import opened Wrappers
  import opened Text

  datatype Json =
    | Null
    | Bool(b: bool)
    | Int(i: int)
    | Str(s: string)
    | Arr(items: seq<Json>)
    | Obj(fields: map<string, Json>)

  /** A JSON object, i.e. a Python dict with string keys. */
  type Dict = map<string, Json>

  /** Python truthiness of a JSON value. */
  predicate Truthy(v: Json)
  {
    match v
    case Null => false
    case Bool(b) => b
    case Int(i) => i != 0
    case Str(s) => s != ""
    case Arr(items) => items != []
    case Obj(fields) => fields != map[]
  }

  /** `d.get(k, default)`. */
  function Get(d: Dict, k: string, default: Json): Json
  {
    if k in d then d[k] else default
  }

  /** `d.setdefault(k, v)`: adds the key only when it is absent. */
  function SetDefault(d: Dict, k: string, v: Json): Dict
  {
    if k in d then d else d[k := v]
  }

  /**
   * The value a `setdefault` call supplies: a fixed value, or the value of
   * another key with a fallback (`d.get(src, fallback)`).
   */
  datatype Fill = Fixed(value: Json) | Copy(src: string, otherwise: Fill)

  /** One `d.setdefault(key, ...)` call. */
  datatype Default = Default(key: string, fill: Fill)

  function FillValue(d: Dict, fill: Fill): Json
  {
    match fill
    case Fixed(v) => v
    case Copy(src, otherwise) => Get(d, src, FillValue(d, otherwise))
  }

  /** The keys a fill reads. */
  function Sources(fill: Fill): seq<string>
  {
    match fill
    case Fixed(_) => []
    case Copy(src, otherwise) => [src] + Sources(otherwise)
  }

  /** The keys a list of defaults sets. */
  function DefaultKeys(steps: seq<Default>): (r: seq<string>)
    ensures |r| == |steps| && forall i :: 0 <= i < |steps| ==> r[i] == steps[i].key
  {
    seq(|steps|, i requires 0 <= i < |steps| => steps[i].key)
  }

  /** A sequence of `setdefault` calls, each reading the dict as the earlier ones left it. */
  function ApplyDefaults(d: Dict, steps: seq<Default>): Dict
    decreases |steps|
  {
    if steps == [] then d
    else ApplyDefaults(SetDefault(d, steps[0].key, FillValue(d, steps[0].fill)), steps[1..])
  }

  /** Applying a list of defaults is applying a prefix of it, then the rest. */
  lemma {:induction false} ApplyDefaultsSplit(d: Dict, steps: seq<Default>, n: nat)
    requires n <= |steps|
    ensures ApplyDefaults(d, steps) == ApplyDefaults(ApplyDefaults(d, steps[..n]), steps[n..])
    decreases n
  {
    if n > 0 {
      var e := SetDefault(d, steps[0].key, FillValue(d, steps[0].fill));
      assert steps[..n][0] == steps[0] && steps[..n][1..] == steps[1..][..n - 1];
      assert steps[1..][n - 1..] == steps[n..];
      ApplyDefaultsSplit(e, steps[1..], n - 1);
    }
  }

  /**
   * Defaults never overwrite a present key, always supply their own keys,
   * and add no other key.
   */
  lemma {:induction false} ApplyDefaultsKeeps(d: Dict, steps: seq<Default>)
    decreases |steps|
    ensures var r := ApplyDefaults(d, steps);
      (forall j :: j in d ==> j in r && r[j] == d[j])
      && (forall i :: 0 <= i < |steps| ==> steps[i].key in r)
      && (forall j :: j in r ==> j in d || j in DefaultKeys(steps))
  {
    if steps != [] {
      var e := SetDefault(d, steps[0].key, FillValue(d, steps[0].fill));
      ApplyDefaultsKeeps(e, steps[1..]);
      var r := ApplyDefaults(d, steps);
      assert r == ApplyDefaults(e, steps[1..]);
      forall i | 0 <= i < |steps|
        ensures steps[i].key in r
      {
        if i > 0 {
          assert steps[i] == steps[1..][i - 1];
        }
      }
      forall j | j in r
        ensures j in d || j in DefaultKeys(steps)
      {
        if j !in e {
          var k :| 0 <= k < |steps| - 1 && steps[1..][k].key == j;
          assert DefaultKeys(steps)[k + 1] == j;
        } else if j !in d {
          assert DefaultKeys(steps)[0] == j;
        }
      }
    }
  }

  /** Defaults whose keys are all present change nothing. */
  lemma {:induction false} ApplyDefaultsComplete(d: Dict, steps: seq<Default>)
    decreases |steps|
    requires forall i :: 0 <= i < |steps| ==> steps[i].key in d
    ensures ApplyDefaults(d, steps) == d
  {
    if steps != [] {
      ApplyDefaultsComplete(d, steps[1..]);
    }
  }

  /** Two dicts that agree on the keys a fill reads give it the same value. */
  lemma {:induction false} FillAgrees(d: Dict, e: Dict, fill: Fill)
    requires forall s :: s in Sources(fill) ==> Get(d, s, Null) == Get(e, s, Null) && (s in d <==> s in e)
    ensures FillValue(d, fill) == FillValue(e, fill)
  {
    match fill
    case Fixed(_) =>
    case Copy(src, otherwise) =>
      assert src in Sources(fill);
      FillAgrees(d, e, otherwise);
  }

  /**
   * The value a default leaves for its key when no earlier default sets that
   * key or one it reads: the stored value, or the fill evaluated on the
   * original dict.
   */
  lemma {:induction false} ApplyDefaultsValue(d: Dict, steps: seq<Default>, i: nat)
    requires i < |steps|
    requires steps[i].key !in DefaultKeys(steps[..i])
    requires forall s :: s in Sources(steps[i].fill) ==> s !in DefaultKeys(steps[..i])
    ensures var r := ApplyDefaults(d, steps);
      steps[i].key in r && r[steps[i].key] == Get(d, steps[i].key, FillValue(d, steps[i].fill))
    decreases i
  {
    var e := SetDefault(d, steps[0].key, FillValue(d, steps[0].fill));
    ApplyDefaultsKeeps(e, steps[1..]);
    if i > 0 {
      assert DefaultKeys(steps[..i])[0] == steps[0].key;
      assert steps[1..][i - 1] == steps[i];
      assert DefaultKeys(steps[1..][..i - 1]) == DefaultKeys(steps[..i])[1..];
      ApplyDefaultsValue(e, steps[1..], i - 1);
      FillAgrees(d, e, steps[i].fill);
    }
  }

  /**
   * The value a default leaves for its key when it copies the key an earlier
   * default set (`setdefault(b, d.get(a, v))` after `setdefault(a, ...)`):
   * the stored value, else the value the earlier default left.
   */
  lemma CopiedStepValue(d: Dict, steps: seq<Default>, m: nat, i: nat, v: Json)
    requires m < i < |steps| && steps[i].fill == Copy(steps[m].key, Fixed(v)) && steps[m].key != steps[i].key
    requires forall j :: 0 <= j < i && j != m ==> steps[j].key != steps[i].key && steps[j].key != steps[m].key
    requires forall j :: 0 <= j < m ==> steps[j].key !in Sources(steps[m].fill)
    ensures var r := ApplyDefaults(d, steps);
      steps[i].key in r && r[steps[i].key] == Get(d, steps[i].key, Get(d, steps[m].key, FillValue(d, steps[m].fill)))
  {
    var pre, rest := steps[..m + 1], steps[m + 1..];
    ApplyDefaultsSplit(d, steps, m + 1);
    var e := ApplyDefaults(d, pre);
    assert forall j :: 0 <= j < m ==> DefaultKeys(pre[..m])[j] == steps[j].key;
    assert pre[m] == steps[m] && pre[..m] == steps[..m];
    ApplyDefaultsValue(d, pre, m);
    assert steps[i].key !in DefaultKeys(pre);
    ApplyDefaultsOther(d, pre, steps[i].key);
    var n := i - m - 1;
    assert rest[n] == steps[i];
    assert forall j :: 0 <= j < n ==> DefaultKeys(rest[..n])[j] == steps[m + 1 + j].key;
    ApplyDefaultsValue(e, rest, n);
  }

  /** The value a key no default sets keeps. */
  lemma ApplyDefaultsOther(d: Dict, steps: seq<Default>, k: string)
    requires k !in DefaultKeys(steps)
    ensures var r := ApplyDefaults(d, steps); (k in r <==> k in d) && (k in d ==> r[k] == d[k])
  {
    ApplyDefaultsKeeps(d, steps);
  }


  /** `a or b`. */
  function Or(a: Json, b: Json): Json
  {
    if Truthy(a) then a else b
  }

  /** `v or {}` where the source goes on to use the value as a dict. */
  function DictOr(v: Json): Dict
  {
    if v.Obj? then v.fields else map[]
  }

  /** `v or []` where the source goes on to iterate over the value as a list. */
  function ListOr(v: Json): seq<Json>
  {
    if v.Arr? then v.items else []
  }

  /** The string a text-valued field holds, with `default` where it is falsy (`v or default`). */
  function TextOr(v: Json, default: string): string
  {
    if Truthy(v) then PyStr(v) else default
  }

  /**
   * Python's `str(v)`. The text of a nested list or dict is represented by
   * its opening bracket only.
   */
  function PyStr(v: Json): string
  {
    match v
    case Null => "None"
    case Bool(b) => if b then "True" else "False"
    case Int(i) => IntToString(i)
    case Str(s) => s
    case Arr(_) => "["
    case Obj(_) => "{"
  }

  /** Python's `int(v)`: `None` where Python raises `ValueError` or `TypeError`. */
  function PyInt(v: Json): Option<int>
  {
    match v
    case Bool(b) => Some(if b then 1 else 0)
    case Int(i) => Some(i)
    case Str(s) => ParseInt(s)
    case _ => None
  }

  /** Python's `v == s` for a string `s`. */
  predicate IsText(v: Json, s: string)
  {
    v == Str(s)
  }

  /** Python's `v in options` for a list of strings. */
  predicate InOptions(v: Json, options: seq<string>)
  {
    v.Str? && v.s in options
  }

  /** The strings of a list of strings, as JSON. */
  function Strs(xs: seq<string>): (r: seq<Json>)
    ensures |r| == |xs| && forall i :: 0 <= i < |xs| ==> r[i] == Str(xs[i])
  {
    if xs == [] then [] else [Str(xs[0])] + Strs(xs[1..])
  }

  /** A value Python accepts as a dict key or set element (lists and dicts are not). */
  predicate Hashable(v: Json)
  {
    !v.Arr? && !v.Obj?
  }
}
