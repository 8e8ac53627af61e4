/** A keyed SQL table: its rows by primary key and the order in which a full scan
    visits them. SQL fixes no order for a SELECT without ORDER BY; the model takes
    insertion order: a new key goes to the end, an UPDATE keeps the row in place, and
    an INSERT OR REPLACE deletes the old row and appends the new one. */
module Tables {
  import opened Common

  datatype Table<K(==, !new), V> = Table(rows: map<K, V>, order: seq<K>)

  /** The scan visits every key of the table exactly once. */
  ghost predicate WellFormed<K(!new), V>(t: Table<K, V>) {
    && (forall k :: k in t.order <==> k in t.rows)
    && Distinct(t.order)
  }

  function Empty<K(==, !new), V>(): (t: Table<K, V>)
    ensures WellFormed(t) && t.rows == map[]
  {
    Table(map[], [])
  }

  function Get<K(==, !new), V>(t: Table<K, V>, k: K): (r: Option<V>)
    ensures r.Some? <==> k in t.rows
    ensures r.Some? ==> r.value == t.rows[k]
  {
    if k in t.rows then Some(t.rows[k]) else None
  }

  /** INSERT of a new key, or UPDATE of an existing one in place. */
  function Put<K(==, !new), V>(t: Table<K, V>, k: K, v: V): Table<K, V> {
    if k in t.rows then Table(t.rows[k := v], t.order) else Table(t.rows[k := v], t.order + [k])
  }

  /** `s` without the key `k`. */
  function Without<K(==, !new)>(s: seq<K>, k: K): (r: seq<K>)
    ensures k !in r
    ensures forall x :: x in r <==> x in s && x != k
  {
    if s == [] then [] else (if s[0] == k then [] else [s[0]]) + Without(s[1..], k)
  }

  /** `s` without any of the keys in `ks`. */
  function WithoutAll<K(==, !new)>(s: seq<K>, ks: set<K>): (r: seq<K>)
    ensures forall x :: x in r <==> x in s && x !in ks
  {
    if s == [] then [] else (if s[0] in ks then [] else [s[0]]) + WithoutAll(s[1..], ks)
  }

  /** INSERT OR REPLACE: an existing row with key `k` is deleted first, so the new
      row is visited last. */
  function Replace<K(==, !new), V>(t: Table<K, V>, k: K, v: V): Table<K, V> {
    Table(t.rows[k := v], Without(t.order, k) + [k])
  }

  /** DELETE of every row whose key is in `ks`. */
  function DeleteKeys<K(==, !new), V>(t: Table<K, V>, ks: set<K>): Table<K, V> {
    Table(t.rows - ks, WithoutAll(t.order, ks))
  }

  /** The rows listed in the order of `keys`. */
  function RowsAt<K(==, !new), V>(rows: map<K, V>, keys: seq<K>): (r: seq<V>)
    requires forall k :: k in keys ==> k in rows
    ensures |r| == |keys|
    ensures forall i :: 0 <= i < |keys| ==> r[i] == rows[keys[i]]
  {
    if keys == [] then [] else [rows[keys[0]]] + RowsAt(rows, keys[1..])
  }

  /** A full table scan. */
  function Scan<K(==, !new), V>(t: Table<K, V>): (r: seq<V>)
    requires WellFormed(t)
    ensures |r| == |t.order|
  {
    RowsAt(t.rows, t.order)
  }

  // ---------------------------------------------------------------------------
  // Lemmas
  // ---------------------------------------------------------------------------

  lemma {:induction false} WithoutDistinct<K(!new)>(s: seq<K>, k: K)
    requires Distinct(s)
    ensures Distinct(Without(s, k))
  {
    if s != [] {
      assert Distinct(s[1..]);
      WithoutDistinct(s[1..], k);
      assert s[0] !in s[1..];
    }
  }

  lemma {:induction false} WithoutAllDistinct<K(!new)>(s: seq<K>, ks: set<K>)
    requires Distinct(s)
    ensures Distinct(WithoutAll(s, ks))
  {
    if s != [] {
      assert Distinct(s[1..]);
      WithoutAllDistinct(s[1..], ks);
      assert s[0] !in s[1..];
    }
  }

  lemma {:induction false} WithoutAbsent<K(!new)>(s: seq<K>, k: K)
    requires k !in s
    ensures Without(s, k) == s
  {
    if s != [] {
      WithoutAbsent(s[1..], k);
      assert s == [s[0]] + s[1..];
    }
  }

  lemma AppendDistinct<K>(s: seq<K>, k: K)
    requires Distinct(s) && k !in s
    ensures Distinct(s + [k])
  {
  }

  lemma PutWellFormed<K(!new), V>(t: Table<K, V>, k: K, v: V)
    requires WellFormed(t)
    ensures WellFormed(Put(t, k, v))
  {
    if k !in t.rows {
      AppendDistinct(t.order, k);
    }
  }

  lemma ReplaceWellFormed<K(!new), V>(t: Table<K, V>, k: K, v: V)
    requires WellFormed(t)
    ensures WellFormed(Replace(t, k, v))
  {
    WithoutDistinct(t.order, k);
    AppendDistinct(Without(t.order, k), k);
  }

  lemma DeleteKeysWellFormed<K(!new), V>(t: Table<K, V>, ks: set<K>)
    requires WellFormed(t)
    ensures WellFormed(DeleteKeys(t, ks))
  {
    WithoutAllDistinct(t.order, ks);
  }

  /** A scan yields exactly the stored rows. */
  lemma ScanMembership<K(!new), V>(t: Table<K, V>, v: V)
    requires WellFormed(t)
    ensures v in Scan(t) <==> v in t.rows.Values
  {
    var r := Scan(t);
    if v in r {
      var i :| 0 <= i < |r| && r[i] == v;
      assert t.order[i] in t.rows;
    }
    if v in t.rows.Values {
      var k :| k in t.rows && t.rows[k] == v;
      assert k in t.order;
      var i :| 0 <= i < |t.order| && t.order[i] == k;
      assert r[i] == v;
    }
  }

  /** A scan visits each row once, when rows are told apart by their values. */
  lemma ScanDistinct<K(!new), V>(t: Table<K, V>)
    requires WellFormed(t)
    requires forall a, b :: a in t.rows && b in t.rows && t.rows[a] == t.rows[b] ==> a == b
    ensures Distinct(Scan(t))
  {
  }
}
