/** What the store's `order by` clauses rely on: SQLite's BINARY collation of text,
    and an ordered selection of row ids from a table. */
module Ordering {

  /** BINARY collation: compare code points left to right, and a proper prefix
      sorts first. On Unicode scalar values this is the byte order of UTF-8. */
  predicate TextLe(a: string, b: string) {
    if |a| == 0 then true
    else if |b| == 0 then false
    else if a[0] != b[0] then a[0] < b[0]
    else TextLe(a[1..], b[1..])
  }

  lemma {:induction false} TextLeTotal(a: string, b: string)
    ensures TextLe(a, b) || TextLe(b, a)
  {
    if |a| > 0 && |b| > 0 && a[0] == b[0] {
      TextLeTotal(a[1..], b[1..]);
    }
  }

  lemma {:induction false} TextLeTransitive(a: string, b: string, c: string)
    requires TextLe(a, b) && TextLe(b, c)
    ensures TextLe(a, c)
  {
    if |a| > 0 && |b| > 0 && |c| > 0 && a[0] == b[0] == c[0] {
      TextLeTransitive(a[1..], b[1..], c[1..]);
    }
  }

  /** Only the same text sorts both before and after a text. */
  lemma {:induction false} TextLeAntisymmetric(a: string, b: string)
    requires TextLe(a, b) && TextLe(b, a)
    ensures a == b
  {
    if |a| > 0 && |b| > 0 {
      TextLeAntisymmetric(a[1..], b[1..]);
      assert a == [a[0]] + a[1..] && b == [b[0]] + b[1..];
    }
  }

  /** A column value an `order by` compares: a number or a text. */
  datatype SortKey = Number(n: int) | Text(t: string)

  /** SQLite's ordering of column values: numbers before texts, numbers by
      value, texts by the BINARY collation. */
  predicate KeyLe(a: SortKey, b: SortKey) {
    match (a, b)
    case (Number(x), Number(y)) => x <= y
    case (Number(_), Text(_)) => true
    case (Text(_), Number(_)) => false
    case (Text(x), Text(y)) => TextLe(x, y)
  }

  lemma KeyLeTotal(a: SortKey, b: SortKey)
    ensures KeyLe(a, b) || KeyLe(b, a)
  {
    if a.Text? && b.Text? {
      TextLeTotal(a.t, b.t);
    }
  }

  lemma KeyLeTransitive(a: SortKey, b: SortKey, c: SortKey)
    requires KeyLe(a, b) && KeyLe(b, c)
    ensures KeyLe(a, c)
  {
    if a.Text? && b.Text? && c.Text? {
      TextLeTransitive(a.t, b.t, c.t);
    }
  }

  predicate Distinct(ids: seq<int>) {
    forall i, j :: 0 <= i < j < |ids| ==> ids[i] != ids[j]
  }

  /** The rows named by `ids` exist and come in key order. */
  predicate SortedIds(ids: seq<int>, keys: map<int, SortKey>) {
    && (forall i :: 0 <= i < |ids| ==> ids[i] in keys)
    && (forall i, j :: 0 <= i < j < |ids| ==> KeyLe(keys[ids[i]], keys[ids[j]]))
  }

  /** The row order a `select ... where <keep> order by <key>` returns: every kept
      id exactly once, in key order (ties in no particular order). The table is
      scanned in rowid order, every rowid lying in `[0, bound)`. */
  method SelectOrdered(keys: map<int, SortKey>, bound: nat, keep: set<int>)
    returns (ids: seq<int>)
    requires keep <= keys.Keys
    requires forall id :: id in keep ==> 0 <= id < bound
    ensures Distinct(ids)
    ensures forall id :: id in ids <==> id in keep
    ensures SortedIds(ids, keys)
  {
    ids := [];
    for rowid := 0 to bound
      invariant Distinct(ids)
      invariant forall id :: id in ids <==> id in keep && id < rowid
      invariant SortedIds(ids, keys)
    {
      if rowid in keep {
        ids := InsertSorted(keys, ids, rowid);
      }
    }
  }

  /** Puts id `x` just after the last row whose key does not exceed its own. */
  method InsertSorted(keys: map<int, SortKey>, ids: seq<int>, x: int)
    returns (next: seq<int>)
    requires x in keys
    requires SortedIds(ids, keys)
    ensures SortedIds(next, keys)
    ensures forall id :: id in next <==> id in ids || id == x
    ensures Distinct(ids) && x !in ids ==> Distinct(next)
  {
    var p := 0;
    while p < |ids| && KeyLe(keys[ids[p]], keys[x])
      invariant 0 <= p <= |ids|
      invariant forall i :: 0 <= i < p ==> KeyLe(keys[ids[i]], keys[x])
    {
      p := p + 1;
    }
    if p < |ids| {
      KeyLeTotal(keys[ids[p]], keys[x]);
      forall j | p < j < |ids| ensures KeyLe(keys[x], keys[ids[j]]) {
        KeyLeTransitive(keys[x], keys[ids[p]], keys[ids[j]]);
      }
    }
    assert forall j :: p <= j < |ids| ==> KeyLe(keys[x], keys[ids[j]]);
    next := ids[..p] + [x] + ids[p..];
    SpliceSorted(keys, ids, x, p);
  }

  /** Splicing `x` in at a point where every earlier key does not exceed its own
      and its own does not exceed any later one keeps the ids sorted. */
  lemma SpliceSorted(keys: map<int, SortKey>, ids: seq<int>, x: int, p: nat)
    requires x in keys && SortedIds(ids, keys) && p <= |ids|
    requires forall i :: 0 <= i < p ==> KeyLe(keys[ids[i]], keys[x])
    requires forall j :: p <= j < |ids| ==> KeyLe(keys[x], keys[ids[j]])
    ensures SortedIds(ids[..p] + [x] + ids[p..], keys)
    ensures forall id :: id in ids[..p] + [x] + ids[p..] <==> id in ids || id == x
    ensures Distinct(ids) && x !in ids ==> Distinct(ids[..p] + [x] + ids[p..])
  {
    var next := ids[..p] + [x] + ids[p..];
    assert forall i :: 0 <= i < |next| ==> next[i] == if i < p then ids[i] else if i == p then x else ids[i - 1];
    assert ids == ids[..p] + ids[p..];
  }
}
