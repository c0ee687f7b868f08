/**
 * `json.dumps(..., ensure_ascii=False, separators=(",", ":"))`, with or
 * without `sort_keys`, and the SHA-256 hex digest stand-in. The engine
 * hashes the sorted serialisation of a request's components into its
 * fingerprint, so two requests with the same components get the same
 * fingerprint whatever order their dictionary was built in.
 */
module Json {
  import opened Text
  import opened Values
  import Sorting

  /** Backslash-escapes `"` and `\` (control-character escapes left out). */
  function Escape(s: string): (r: string)
    ensures |r| >= |s|
  {
    if |s| == 0 then ""
    else (if s[0] == '"' || s[0] == '\\' then ['\\', s[0]] else [s[0]]) + Escape(s[1..])
  }

  function Quote(s: string): string {
    "\"" + Escape(s) + "\""
  }

  /** Orders dictionary entries by key, as `sort_keys=True` does. */
  predicate KeyLe(a: (string, Value), b: (string, Value)) {
    StrLe(a.0, b.0)
  }

  function Dumps(v: Value, sortKeys: bool): string
    decreases v, 1
  {
    match v
    case VNull => "null"
    case VBool(b) => if b then "true" else "false"
    case VInt(i) => IntToString(i)
    case VStr(s) => Quote(s)
    case VList(items) => "[" + DumpItems(v, items, sortKeys) + "]"
    case VObj(entries) =>
      var es := if sortKeys then Sorting.Sort(entries, KeyLe) else entries;
      assert forall k :: 0 <= k < |es| ==> es[k] in entries by {
        forall k | 0 <= k < |es| ensures es[k] in entries {
          assert es[k] in multiset(es);
        }
      }
      "{" + DumpEntries(v, es, sortKeys) + "}"
  }

  function DumpItems(owner: Value, items: seq<Value>, sortKeys: bool): string
    requires forall k :: 0 <= k < |items| ==> items[k] < owner
    decreases owner, 0, |items|
  {
    if |items| == 0 then ""
    else Dumps(items[0], sortKeys) + (if |items| == 1 then "" else "," + DumpItems(owner, items[1..], sortKeys))
  }

  function DumpEntries(owner: Value, entries: Dict, sortKeys: bool): string
    requires forall k :: 0 <= k < |entries| ==> entries[k].1 < owner
    decreases owner, 0, |entries|
  {
    if |entries| == 0 then ""
    else
      Quote(entries[0].0) + ":" + Dumps(entries[0].1, sortKeys)
      + (if |entries| == 1 then "" else "," + DumpEntries(owner, entries[1..], sortKeys))
  }

  /** `DumpEntries` does not depend on the value it was called from. */
  lemma {:induction false} DumpEntriesOwner(o1: Value, o2: Value, entries: Dict, sortKeys: bool)
    requires forall k :: 0 <= k < |entries| ==> entries[k].1 < o1
    requires forall k :: 0 <= k < |entries| ==> entries[k].1 < o2
    ensures DumpEntries(o1, entries, sortKeys) == DumpEntries(o2, entries, sortKeys)
    decreases |entries|
  {
    if |entries| > 1 {
      DumpEntriesOwner(o1, o2, entries[1..], sortKeys);
    }
  }

  lemma KeyLeTotalPreorder(d: Dict)
    ensures Sorting.TotalPreorderOn(d, KeyLe)
  {
    forall a, b | a in d && b in d ensures KeyLe(a, b) || KeyLe(b, a) {
      StrLeTotal(a.0, b.0);
    }
    forall a, b, c | a in d && b in d && c in d && KeyLe(a, b) && KeyLe(b, c) ensures KeyLe(a, c) {
      StrLeTransitive(a.0, b.0, c.0);
    }
  }

  /** Sorting by key a dictionary with distinct keys depends only on its entries, not their order. */
  lemma SortByKeyCanonical(a: Dict, b: Dict)
    requires DistinctKeys(a) && multiset(a) == multiset(b)
    ensures Sorting.Sort(a, KeyLe) == Sorting.Sort(b, KeyLe)
  {
    var sa, sb := Sorting.Sort(a, KeyLe), Sorting.Sort(b, KeyLe);
    KeyLeTotalPreorder(a);
    KeyLeTotalPreorder(b);
    Sorting.SortSorted(a, KeyLe);
    Sorting.SortSorted(b, KeyLe);
    forall x, y | x in sa && y in sa && KeyLe(x, y) && KeyLe(y, x) ensures x == y {
      StrLeAntisymmetric(x.0, y.0);
      assert x in multiset(a) && y in multiset(a);
      var i :| 0 <= i < |a| && a[i] == x;
      var j :| 0 <= j < |a| && a[j] == y;
      assert i == j;
    }
    Sorting.SortedUnique(sa, sb, KeyLe);
  }

  /** With `sort_keys=True`, a dictionary's serialisation ignores insertion order. */
  lemma DumpsSortedIgnoresOrder(a: Dict, b: Dict)
    requires DistinctKeys(a) && multiset(a) == multiset(b)
    ensures Dumps(VObj(a), true) == Dumps(VObj(b), true)
  {
    SortByKeyCanonical(a, b);
    var s := Sorting.Sort(a, KeyLe);
    forall k | 0 <= k < |s| ensures s[k].1 < VObj(a) && s[k].1 < VObj(b) {
      assert s[k] in multiset(a);
      assert s[k] in a && s[k] in b;
    }
    DumpEntriesOwner(VObj(a), VObj(b), s, true);
  }

  /**
   * Stand-in for `hashlib.sha256(text.encode("utf-8")).hexdigest()`: the
   * model treats the digest as injective, so it keeps the text itself.
   */
  function Sha256Hex(text: string): string {
    text
  }
}
