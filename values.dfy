/**
 * Decoded JSON values and insertion-ordered dictionaries, as the engine sees
 * them after `json.loads` or the CSV parser: rows are dictionaries from
 * column names to values.
 */
module Values {
  import opened Text

  datatype Value =
    | VNull
    | VBool(b: bool)
    | VInt(i: int)
    | VStr(s: string)
    | VList(items: seq<Value>)
    | VObj(entries: Dict)

  /** A Python `dict`: entries in insertion order, keys distinct. */
  type Dict = seq<(string, Value)>

  /** Python truthiness. */
  predicate Truthy(v: Value) {
    match v
    case VNull => false
    case VBool(b) => b
    case VInt(i) => i != 0
    case VStr(s) => s != ""
    case VList(items) => items != []
    case VObj(entries) => entries != []
  }

  /** Python's `repr` of a string: single quotes (escapes left out). */
  function QuoteRepr(s: string): string {
    "'" + s + "'"
  }

  /** Python's `str(v)`; containers are rendered as their `repr`. */
  function Render(v: Value): string
    decreases v, 1
  {
    match v
    case VNull => "None"
    case VBool(b) => if b then "True" else "False"
    case VInt(i) => IntToString(i)
    case VStr(s) => s
    case VList(items) => "[" + ReprItems(v, items) + "]"
    case VObj(entries) => "{" + ReprEntries(v, entries) + "}"
  }

  function Repr(v: Value): string
    decreases v, 2
  {
    match v
    case VStr(s) => QuoteRepr(s)
    case _ => Render(v)
  }

  function ReprItems(owner: Value, items: seq<Value>): string
    requires forall k :: 0 <= k < |items| ==> items[k] < owner
    decreases owner, 0, |items|
  {
    if |items| == 0 then ""
    else Repr(items[0]) + (if |items| == 1 then "" else ", " + ReprItems(owner, items[1..]))
  }

  function ReprEntries(owner: Value, entries: Dict): string
    requires forall k :: 0 <= k < |entries| ==> entries[k].1 < owner
    decreases owner, 0, |entries|
  {
    if |entries| == 0 then ""
    else
      QuoteRepr(entries[0].0) + ": " + Repr(entries[0].1)
      + (if |entries| == 1 then "" else ", " + ReprEntries(owner, entries[1..]))
  }

  /** Rendering a string value is the string itself (Python's `str(s) == s`). */
  lemma RenderString(s: string)
    ensures Render(VStr(s)) == s
  {
  }

  ghost predicate DistinctKeys(d: Dict) {
    forall i, j :: 0 <= i < j < |d| ==> d[i].0 != d[j].0
  }

  function Keys(d: Dict): (ks: seq<string>)
    ensures |ks| == |d| && forall i :: 0 <= i < |d| ==> ks[i] == d[i].0
  {
    seq(|d|, i requires 0 <= i < |d| => d[i].0)
  }

  predicate HasKey(d: Dict, k: string) {
    exists i :: 0 <= i < |d| && d[i].0 == k
  }

  /** `d.get(k)`: the value stored under `k`, if any. */
  function Get(d: Dict, k: string): (r: Option<Value>)
    ensures r.Some? <==> HasKey(d, k)
    ensures r.Some? ==> exists i :: 0 <= i < |d| && d[i] == (k, r.value)
  {
    if |d| == 0 then None
    else if d[|d| - 1].0 == k then Some(d[|d| - 1].1)
    else Get(d[..|d| - 1], k)
  }

  /** `d[k] = v`: replaces in place when `k` is present, otherwise appends. */
  function Set(d: Dict, k: string, v: Value): (r: Dict)
    ensures |r| == if HasKey(d, k) then |d| else |d| + 1
    ensures forall i :: 0 <= i < |d| ==> r[i].0 == d[i].0
  {
    if HasKey(d, k) then seq(|d|, i requires 0 <= i < |d| => if d[i].0 == k then (k, v) else d[i])
    else d + [(k, v)]
  }

  lemma SetGet(d: Dict, k: string, v: Value, other: string)
    requires DistinctKeys(d)
    ensures DistinctKeys(Set(d, k, v))
    ensures Get(Set(d, k, v), k) == Some(v)
    ensures other != k ==> Get(Set(d, k, v), other) == Get(d, other)
  {
    var r := Set(d, k, v);
    GetUnique(r, k);
    GetUnique(r, other);
    GetUnique(d, other);
  }

  /** With distinct keys, `Get` finds the one entry holding the key. */
  lemma GetUnique(d: Dict, k: string)
    requires DistinctKeys(d)
    ensures forall i :: 0 <= i < |d| && d[i].0 == k ==> Get(d, k) == Some(d[i].1)
  {
  }

  /** Python's `list(v)`: lists give their items, strings their characters, dicts their keys. */
  function AsList(v: Value): (r: Option<seq<Value>>)
    ensures r.Some? <==> (v.VList? || v.VStr? || v.VObj?)
    ensures v.VList? ==> r == Some(v.items)
  {
    match v
    case VList(items) => Some(items)
    case VStr(s) => Some(seq(|s|, i requires 0 <= i < |s| => VStr([s[i]])))
    case VObj(entries) => Some(seq(|entries|, i requires 0 <= i < |entries| => VStr(entries[i].0)))
    case _ => None
  }

  /** Python's `int(v)` for the value kinds JSON produces (floats left out). */
  function AsInt(v: Value): (r: Option<int>)
    ensures v.VInt? ==> r == Some(v.i)
    ensures v.VNull? || v.VList? || v.VObj? ==> r.None?
  {
    match v
    case VInt(i) => Some(i)
    case VBool(b) => Some(if b then 1 else 0)
    case VStr(s) => ParseInt(s)
    case _ => None
  }
}
