/** Python dictionaries with string keys, modelled as insertion-ordered
    association lists, and the key-wise summing merge of several tables. */
module Dicts {

  datatype Option<T> = None | Some(value: T)

  /** A dict as a sequence of (key, value) pairs in insertion order; the
      system uses string keys (building kinds). */
  type Dict<K, V> = seq<(K, V)>

  /** The keys in iteration (insertion) order. */
  function Keys<K(==), V>(d: Dict<K, V>): seq<K> {
    if d == [] then [] else [d[0].0] + Keys(d[1..])
  }

  /** No key occurs twice (every Python dict has this shape). */
  ghost predicate Distinct<K, V>(d: Dict<K, V>) {
    d == [] || (d[0].0 !in Keys(d[1..]) && Distinct(d[1..]))
  }

  /** `d.get(k)`: the value stored under k, if any. */
  function Get<K(==), V>(d: Dict<K, V>, k: K): (r: Option<V>)
    ensures r.None? <==> k !in Keys(d)
  {
    if d == [] then None else if d[0].0 == k then Some(d[0].1) else Get(d[1..], k)
  }

  /** `d.get(k, default)` on an integer-valued dict. */
  function GetOr<K(==)>(d: Dict<K, int>, k: K, default: int): int {
    match Get(d, k)
    case None => default
    case Some(v) => v
  }

  /** `d[k] = v`: an existing key keeps its place, a new key goes last. */
  function Set<K(==), V>(d: Dict<K, V>, k: K, v: V): (r: Dict<K, V>)
    ensures Get(r, k) == Some(v)
  {
    if d == [] then [(k, v)]
    else if d[0].0 == k then [(k, v)] + d[1..]
    else [d[0]] + Set(d[1..], k, v)
  }

  lemma SetKeys<K, V>(d: Dict<K, V>, k: K, v: V)
    ensures Keys(Set(d, k, v)) == if k in Keys(d) then Keys(d) else Keys(d) + [k]
  {
  }

  lemma SetOther<K, V>(d: Dict<K, V>, k: K, v: V, k': K)
    requires k' != k
    ensures Get(Set(d, k, v), k') == Get(d, k')
  {
  }

  lemma SetDistinct<K, V>(d: Dict<K, V>, k: K, v: V)
    requires Distinct(d)
    ensures Distinct(Set(d, k, v))
  {
    if d != [] && d[0].0 != k {
      SetDistinct(d[1..], k, v);
      SetKeys(d[1..], k, v);
    }
  }

  /** In a dict without repeated keys, the entry at index i is what `get`
      finds for its key. */
  lemma {:induction false} GetAt<K, V>(d: Dict<K, V>, i: nat)
    requires Distinct(d) && i < |d|
    ensures Get(d, d[i].0) == Some(d[i].1)
    decreases i
  {
    if i > 0 {
      KeysHead(d);
      assert d[i].0 == d[1..][i - 1].0 && d[1..][i - 1].0 in Keys(d[1..]) by {
        KeysAt(d[1..], i - 1);
      }
      GetAt(d[1..], i - 1);
    }
  }

  lemma {:induction false} KeysAt<K, V>(d: Dict<K, V>, i: nat)
    requires i < |d|
    ensures d[i].0 in Keys(d)
    decreases i
  {
    if i > 0 {
      KeysAt(d[1..], i - 1);
    }
  }

  /** A key of a dict is the key of one of its entries. */
  lemma {:induction false} KeysIndex<K, V>(d: Dict<K, V>, k: K)
    requires k in Keys(d)
    ensures exists i :: 0 <= i < |d| && d[i].0 == k
    decreases |d|
  {
    if d[0].0 != k {
      KeysIndex(d[1..], k);
      var i :| 0 <= i < |d[1..]| && d[1..][i].0 == k;
      assert d[i + 1].0 == k;
    }
  }

  /** Every entry of `Set(d, k, v)` is (k, v) or an entry of d. */
  lemma {:induction false} SetEntries<K, V>(d: Dict<K, V>, k: K, v: V)
    ensures forall i :: 0 <= i < |Set(d, k, v)| ==> Set(d, k, v)[i] == (k, v) || Set(d, k, v)[i] in d
    decreases |d|
  {
    if d != [] && d[0].0 != k {
      SetEntries(d[1..], k, v);
      var r := Set(d, k, v);
      forall i | 0 <= i < |r| ensures r[i] == (k, v) || r[i] in d {
        if i > 0 {
          assert r[i] == Set(d[1..], k, v)[i - 1];
        }
      }
    }
  }

  /** `more`'s elements appended to `ks` in first-occurrence order,
      skipping those already present: how the keys of a dict accumulate. */
  function AppendNew<K(==)>(ks: seq<K>, more: seq<K>): seq<K>
    decreases |more|
  {
    if more == [] then ks
    else AppendNew(if more[0] in ks then ks else ks + [more[0]], more[1..])
  }

  lemma {:induction false} AppendNewMembers<K>(ks: seq<K>, more: seq<K>, x: K)
    ensures x in AppendNew(ks, more) <==> x in ks || x in more
    decreases |more|
  {
    if more != [] {
      AppendNewMembers(if more[0] in ks then ks else ks + [more[0]], more[1..], x);
    }
  }

  lemma {:induction false} AppendNewSplit<K>(ks: seq<K>, a: seq<K>, b: seq<K>)
    ensures AppendNew(ks, a + b) == AppendNew(AppendNew(ks, a), b)
    decreases |a|
  {
    if a == [] {
      assert a + b == b;
    } else {
      assert (a + b)[0] == a[0] && (a + b)[1..] == a[1..] + b;
      AppendNewSplit(if a[0] in ks then ks else ks + [a[0]], a[1..], b);
    }
  }

  /** `acc[key] = acc.get(key, 0) + value` */
  function AddEntry<K(==)>(acc: Dict<K, int>, p: (K, int)): Dict<K, int> {
    Set(acc, p.0, GetOr(acc, p.0, 0) + p.1)
  }

  /** `for key, value in t.items(): acc[key] = acc.get(key, 0) + value` */
  function AddAll<K(==)>(acc: Dict<K, int>, t: Dict<K, int>): Dict<K, int>
    decreases |t|
  {
    if t == [] then acc else AddAll(AddEntry(acc, t[0]), t[1..])
  }

  /** Every table of `ts` absorbed into `acc` in turn. */
  function AddTables<K(==)>(acc: Dict<K, int>, ts: seq<Dict<K, int>>): Dict<K, int>
    decreases |ts|
  {
    if ts == [] then acc else AddTables(AddAll(acc, ts[0]), ts[1..])
  }

  /** The key-wise sum of a list of tables, built as the source builds it:
      an empty dict that absorbs each table in turn. */
  function Combine<K(==)>(ts: seq<Dict<K, int>>): Dict<K, int> {
    AddTables([], ts)
  }

  /** Every key of every table, table by table. */
  function AllKeys<K(==)>(ts: seq<Dict<K, int>>): seq<K>
    decreases |ts|
  {
    if ts == [] then [] else Keys(ts[0]) + AllKeys(ts[1..])
  }

  /** `sum(t.get(k, 0) for t in ts)` */
  function SumAt<K(==)>(ts: seq<Dict<K, int>>, k: K): int
    decreases |ts|
  {
    if ts == [] then 0 else GetOr(ts[0], k, 0) + SumAt(ts[1..], k)
  }

  lemma {:induction false} SumAtAbsent<K>(ts: seq<Dict<K, int>>, k: K)
    requires k !in AllKeys(ts)
    ensures SumAt(ts, k) == 0
    decreases |ts|
  {
    if ts != [] {
      SumAtAbsent(ts[1..], k);
    }
  }

  lemma {:induction false} AllKeysMembers<K>(ts: seq<Dict<K, int>>, k: K)
    ensures k in AllKeys(ts) <==> exists i :: 0 <= i < |ts| && k in Keys(ts[i])
    decreases |ts|
  {
    if ts != [] {
      AllKeysMembers(ts[1..], k);
      if k in AllKeys(ts[1..]) {
        var i :| 0 <= i < |ts[1..]| && k in Keys(ts[1..][i]);
        assert ts[i + 1] == ts[1..][i];
      }
      if exists i :: 0 <= i < |ts| && k in Keys(ts[i]) {
        var i :| 0 <= i < |ts| && k in Keys(ts[i]);
        if i > 0 {
          assert ts[1..][i - 1] == ts[i];
        }
      }
    }
  }

  lemma KeysHead<K, V>(d: Dict<K, V>)
    requires d != []
    ensures Keys(d)[0] == d[0].0 && Keys(d)[1..] == Keys(d[1..])
  {
  }

  lemma {:induction false} AddAllKeys<K>(acc: Dict<K, int>, t: Dict<K, int>)
    ensures Keys(AddAll(acc, t)) == AppendNew(Keys(acc), Keys(t))
    decreases |t|
  {
    if t != [] {
      SetKeys(acc, t[0].0, GetOr(acc, t[0].0, 0) + t[0].1);
      KeysHead(t);
      AddAllKeys(AddEntry(acc, t[0]), t[1..]);
    }
  }

  lemma {:induction false} AddAllDistinct<K>(acc: Dict<K, int>, t: Dict<K, int>)
    requires Distinct(acc)
    ensures Distinct(AddAll(acc, t))
    decreases |t|
  {
    if t != [] {
      SetDistinct(acc, t[0].0, GetOr(acc, t[0].0, 0) + t[0].1);
      AddAllDistinct(AddEntry(acc, t[0]), t[1..]);
    }
  }

  lemma {:induction false} AddAllGet<K>(acc: Dict<K, int>, t: Dict<K, int>, k: K)
    requires Distinct(t)
    ensures Get(AddAll(acc, t), k) ==
              if k in Keys(t) then Some(GetOr(acc, k, 0) + GetOr(t, k, 0)) else Get(acc, k)
  {
    if k in Keys(t) {
      AddAllGetPresent(acc, t, k);
    } else {
      AddAllGetAbsent(acc, t, k);
    }
  }

  /** A key no entry of `t` has keeps its value. */
  lemma {:induction false} AddAllGetAbsent<K>(acc: Dict<K, int>, t: Dict<K, int>, k: K)
    requires k !in Keys(t)
    ensures Get(AddAll(acc, t), k) == Get(acc, k)
    decreases |t|
  {
    if t != [] {
      KeysHead(t);
      assert k != t[0].0 && k !in Keys(t[1..]);
      AddAllGetAbsent(AddEntry(acc, t[0]), t[1..], k);
      AddEntryGet(acc, t[0], k);
    }
  }

  /** A key of `t` gains `t`'s value. */
  lemma {:induction false} AddAllGetPresent<K>(acc: Dict<K, int>, t: Dict<K, int>, k: K)
    requires Distinct(t) && k in Keys(t)
    ensures Get(AddAll(acc, t), k) == Some(GetOr(acc, k, 0) + GetOr(t, k, 0))
    decreases |t|
  {
    var p, rest := t[0], t[1..];
    var a := AddEntry(acc, p);
    KeysHead(t);
    AddEntryGet(acc, p, k);
    if k == p.0 {
      assert p.0 !in Keys(rest);
      AddAllGetAbsent(a, rest, k);
      assert GetOr(t, k, 0) == p.1;
    } else {
      assert k in Keys(rest);
      AddAllGetPresent(a, rest, k);
      assert GetOr(t, k, 0) == GetOr(rest, k, 0);
    }
  }

  lemma AddEntryGet<K>(acc: Dict<K, int>, p: (K, int), k: K)
    ensures Get(AddEntry(acc, p), k) == if k == p.0 then Some(GetOr(acc, k, 0) + p.1) else Get(acc, k)
  {
    if k != p.0 {
      SetOther(acc, p.0, GetOr(acc, p.0, 0) + p.1, k);
    }
  }

  lemma {:induction false} AddTablesKeys<K>(acc: Dict<K, int>, ts: seq<Dict<K, int>>)
    ensures Keys(AddTables(acc, ts)) == AppendNew(Keys(acc), AllKeys(ts))
    ensures Distinct(acc) ==> Distinct(AddTables(acc, ts))
    decreases |ts|
  {
    if ts != [] {
      AddAllKeys(acc, ts[0]);
      if Distinct(acc) {
        AddAllDistinct(acc, ts[0]);
      }
      AddTablesKeys(AddAll(acc, ts[0]), ts[1..]);
      AppendNewSplit(Keys(acc), Keys(ts[0]), AllKeys(ts[1..]));
    }
  }

  /** A key no table has keeps its value. */
  lemma {:induction false} AddTablesGetAbsent<K>(acc: Dict<K, int>, ts: seq<Dict<K, int>>, k: K)
    requires k !in AllKeys(ts)
    ensures Get(AddTables(acc, ts), k) == Get(acc, k)
    decreases |ts|
  {
    if ts != [] {
      assert AllKeys(ts) == Keys(ts[0]) + AllKeys(ts[1..]);
      AddAllGetAbsent(acc, ts[0], k);
      AddTablesGetAbsent(AddAll(acc, ts[0]), ts[1..], k);
    }
  }

  /** A key some table has gains the sum of the tables' values. */
  lemma {:induction false} AddTablesGetPresent<K>(acc: Dict<K, int>, ts: seq<Dict<K, int>>, k: K)
    requires forall i :: 0 <= i < |ts| ==> Distinct(ts[i])
    requires k in AllKeys(ts)
    ensures Get(AddTables(acc, ts), k) == Some(GetOr(acc, k, 0) + SumAt(ts, k))
    decreases |ts|
  {
    var rest, a := ts[1..], AddAll(acc, ts[0]);
    assert AllKeys(ts) == Keys(ts[0]) + AllKeys(rest);
    assert Distinct(ts[0]);
    AddAllGet(acc, ts[0], k);
    assert GetOr(a, k, 0) == GetOr(acc, k, 0) + GetOr(ts[0], k, 0);
    if k in AllKeys(rest) {
      assert forall i :: 0 <= i < |rest| ==> rest[i] == ts[i + 1];
      AddTablesGetPresent(a, rest, k);
    } else {
      SumAtAbsent(rest, k);
      AddTablesGetAbsent(a, rest, k);
    }
  }

  lemma AddTablesGet<K>(acc: Dict<K, int>, ts: seq<Dict<K, int>>, k: K)
    requires forall i :: 0 <= i < |ts| ==> Distinct(ts[i])
    ensures Get(AddTables(acc, ts), k) ==
              if k in AllKeys(ts) then Some(GetOr(acc, k, 0) + SumAt(ts, k)) else Get(acc, k)
  {
    if k in AllKeys(ts) {
      AddTablesGetPresent(acc, ts, k);
    } else {
      AddTablesGetAbsent(acc, ts, k);
    }
  }

  /** The keys of the combined table are the union of the tables' keys,
      in first-occurrence order, each once. */
  lemma CombineKeys<K>(ts: seq<Dict<K, int>>)
    ensures Keys(Combine(ts)) == AppendNew([], AllKeys(ts))
    ensures Distinct(Combine(ts))
    ensures forall k :: k in Keys(Combine(ts)) <==> exists i :: 0 <= i < |ts| && k in Keys(ts[i])
  {
    AddTablesKeys([], ts);
    forall k ensures k in Keys(Combine(ts)) <==> exists i :: 0 <= i < |ts| && k in Keys(ts[i]) {
      AppendNewMembers([], AllKeys(ts), k);
      AllKeysMembers(ts, k);
    }
  }

  /** Each combined value is the sum of `t.get(k, 0)` over the tables; a key
      absent from every table is absent from the result. */
  lemma CombineGet<K>(ts: seq<Dict<K, int>>, k: K)
    requires forall i :: 0 <= i < |ts| ==> Distinct(ts[i])
    ensures Get(Combine(ts), k) ==
              if exists i :: 0 <= i < |ts| && k in Keys(ts[i]) then Some(SumAt(ts, k)) else None
  {
    AddTablesGet([], ts, k);
    AllKeysMembers(ts, k);
  }

  /** The source's inner merge loop: one table absorbed into `acc`. */
  method AbsorbTable<K(==)>(acc: Dict<K, int>, t: Dict<K, int>) returns (r: Dict<K, int>)
    ensures r == AddAll(acc, t)
  {
    r := acc;
    for j := 0 to |t|
      invariant AddAll(r, t[j..]) == AddAll(acc, t)
    {
      assert t[j..][0] == t[j] && t[j..][1..] == t[j + 1..];
      r := AddEntry(r, t[j]);
    }
  }

  /** The source's merge loop, run over a list of tables. */
  method CombineTables<K(==)>(ts: seq<Dict<K, int>>) returns (r: Dict<K, int>)
    ensures r == Combine(ts)
  {
    r := [];
    for i := 0 to |ts|
      invariant AddTables(r, ts[i..]) == Combine(ts)
    {
      assert ts[i..][0] == ts[i] && ts[i..][1..] == ts[i + 1..];
      r := AbsorbTable(r, ts[i]);
    }
  }
}
