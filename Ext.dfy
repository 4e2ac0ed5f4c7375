/**
 * Ext.kt: `groupBySet`/`groupBySetTo`, a `groupBy` that collects each key's values
 * into a set, and `Point.coord()`.
 */
module Ext {
  import Points
  import Decimal

  /**
   * A `LinkedHashMap<K, MutableSet<V>>`: the entries plus the order in which their
   * keys were first inserted.
   */
  datatype LinkedSetMap<K, V> = LinkedSetMap(order: seq<K>, entries: map<K, set<V>>) {

    ghost predicate Valid() {
      && (forall i, j :: 0 <= i < j < |order| ==> order[i] != order[j])
      && entries.Keys == set i | 0 <= i < |order| :: order[i]
    }

    /** `m[k]?.contains(v) == true`: a missing key reads as no values. */
    function Get(k: K): (s: set<V>)
      ensures k !in entries ==> s == {}
    {
      if k in entries then entries[k] else {}
    }
  }

  function Empty<K, V>(): (m: LinkedSetMap<K, V>)
    ensures m.Valid() && m.entries == map[] && m.order == []
  {
    LinkedSetMap([], map[])
  }

  /** The key of every element, in order. */
  function KeysOf<T, K>(elements: seq<T>, key: T -> K): (ks: seq<K>)
    ensures |ks| == |elements|
    ensures forall i :: 0 <= i < |elements| ==> ks[i] == key(elements[i])
  {
    seq(|elements|, i requires 0 <= i < |elements| => key(elements[i]))
  }

  /** The key order of a linked map after inserting the keys `ks`, in turn, into `order`. */
  function KeyOrder<K(==)>(order: seq<K>, ks: seq<K>): seq<K>
    decreases |ks|
  {
    if ks == [] then order
    else
      var before := KeyOrder(order, ks[..|ks| - 1]);
      if ks[|ks| - 1] in before then before else before + [ks[|ks| - 1]]
  }

  /** The position of the first occurrence of `k` in `ks`. */
  function FirstIndex<K(==)>(ks: seq<K>, k: K): (i: nat)
    requires k in ks
    ensures i < |ks| && ks[i] == k && k !in ks[..i]
  {
    if ks[0] == k then 0 else assert ks == [ks[0]] + ks[1..]; 1 + FirstIndex(ks[1..], k)
  }

  lemma {:induction false} FirstIndexPrefix<K>(ks: seq<K>, n: nat, k: K)
    requires n <= |ks| && k in ks[..n]
    ensures FirstIndex(ks, k) == FirstIndex(ks[..n], k)
  {
    if ks[0] != k {
      assert ks[1..][..n - 1] == ks[..n][1..];
      FirstIndexPrefix(ks[1..], n - 1, k);
    }
  }

  lemma InEither<K>(s: seq<K>, a: seq<K>, b: seq<K>, k: K)
    requires forall k :: k in s <==> k in a || k in b
    requires k in s
    ensures k in a || k in b
  {
  }

  /**
   * Keys already present keep their place, and each new key is appended when it is
   * first seen, so new keys follow the order of their first occurrence in `ks`.
   */
  lemma {:induction false} KeyOrderSpec<K>(order: seq<K>, ks: seq<K>)
    requires forall i, j :: 0 <= i < j < |order| ==> order[i] != order[j]
    ensures var r := KeyOrder(order, ks);
      && |r| >= |order| && r[..|order|] == order
      && (forall i, j :: 0 <= i < j < |r| ==> r[i] != r[j])
      && (forall k :: k in r <==> k in order || k in ks)
      && (forall i, j :: |order| <= i < j < |r| ==>
            r[i] in ks && r[j] in ks && FirstIndex(ks, r[i]) < FirstIndex(ks, r[j]))
    decreases |ks|
  {
    if ks != [] {
      var init := ks[..|ks| - 1];
      var last := ks[|ks| - 1];
      KeyOrderSpec(order, init);
      var before := KeyOrder(order, init);
      assert forall k :: k in before <==> k in order || k in init;
      assert forall k :: k in ks <==> k in init || k == last by {
        assert ks == init + [last];
      }
      forall i | |order| <= i < |before| ensures before[i] in ks && FirstIndex(ks, before[i]) == FirstIndex(init, before[i]) {
        var b := before[i];
        InEither(before, order, init, b);
        if b !in order {
          assert init == ks[..|ks| - 1];
          FirstIndexPrefix(ks, |ks| - 1, before[i]);
        }
      }
      if last !in before {
        var r := before + [last];
        assert last !in init;
        assert FirstIndex(ks, last) == |ks| - 1;
        assert r[..|order|] == before[..|order|];
      }
    }
  }

  /** One step of `groupBySetTo`: `destination.getOrPut(k) { mutableSetOf() }.add(v)`. */
  function Insert<K(==), V(==)>(m: LinkedSetMap<K, V>, k: K, v: V): LinkedSetMap<K, V> {
    LinkedSetMap(if k in m.entries then m.order else m.order + [k], m.entries[k := m.Get(k) + {v}])
  }

  /** The destination after inserting every element in turn. */
  function InsertAll<T, K(==), V(==)>(dest: LinkedSetMap<K, V>, elements: seq<T>, key: T -> K, value: T -> V)
    : LinkedSetMap<K, V>
    decreases |elements|
  {
    if elements == [] then dest
    else
      var e := elements[|elements| - 1];
      Insert(InsertAll(dest, elements[..|elements| - 1], key, value), key(e), value(e))
  }

  lemma {:induction false} InsertAllOrder<T, K, V>(dest: LinkedSetMap<K, V>, elements: seq<T>, key: T -> K, value: T -> V)
    requires dest.Valid()
    ensures InsertAll(dest, elements, key, value).Valid()
    ensures InsertAll(dest, elements, key, value).order == KeyOrder(dest.order, KeysOf(elements, key))
    decreases |elements|
  {
    if elements != [] {
      var init := elements[..|elements| - 1];
      InsertAllOrder(dest, init, key, value);
      var m := InsertAll(dest, init, key, value);
      var k := key(elements[|elements| - 1]);
      assert KeysOf(elements, key)[..|elements| - 1] == KeysOf(init, key);
      if k !in m.entries {
        assert (set i | 0 <= i < |m.order + [k]| :: (m.order + [k])[i]) == (set i | 0 <= i < |m.order| :: m.order[i]) + {k} by {
          assert forall i :: 0 <= i < |m.order| ==> (m.order + [k])[i] == m.order[i];
          assert (m.order + [k])[|m.order|] == k;
        }
      }
    }
  }

  lemma {:induction false} InsertAllKeys<T, K, V>(dest: LinkedSetMap<K, V>, elements: seq<T>, key: T -> K, value: T -> V)
    ensures forall k :: k in InsertAll(dest, elements, key, value).entries <==>
      k in dest.entries || exists i :: 0 <= i < |elements| && key(elements[i]) == k
    decreases |elements|
  {
    if elements != [] {
      var init := elements[..|elements| - 1];
      InsertAllKeys(dest, init, key, value);
      assert forall i :: 0 <= i < |init| ==> init[i] == elements[i];
    }
  }

  lemma {:induction false} InsertAllValues<T, K, V>(dest: LinkedSetMap<K, V>, elements: seq<T>, key: T -> K, value: T -> V)
    ensures forall k, v :: v in InsertAll(dest, elements, key, value).Get(k) <==>
      v in dest.Get(k) || exists i :: 0 <= i < |elements| && key(elements[i]) == k && value(elements[i]) == v
    decreases |elements|
  {
    if elements != [] {
      var init := elements[..|elements| - 1];
      var e := elements[|elements| - 1];
      InsertAllValues(dest, init, key, value);
      var m := InsertAll(dest, init, key, value);
      var r := InsertAll(dest, elements, key, value);
      forall k', v' ensures v' in r.Get(k') <==>
        v' in dest.Get(k') || exists i :: 0 <= i < |elements| && key(elements[i]) == k' && value(elements[i]) == v'
      {
        var inInit := exists i :: 0 <= i < |init| && key(init[i]) == k' && value(init[i]) == v';
        assert v' in m.Get(k') <==> v' in dest.Get(k') || inInit;
        assert r.Get(k') == if k' == key(e) then m.Get(k') + {value(e)} else m.Get(k');
        if exists i :: 0 <= i < |elements| && key(elements[i]) == k' && value(elements[i]) == v' {
          var i :| 0 <= i < |elements| && key(elements[i]) == k' && value(elements[i]) == v';
          if i < |init| { assert key(init[i]) == k' && value(init[i]) == v'; }
        }
        if inInit {
          var i :| 0 <= i < |init| && key(init[i]) == k' && value(init[i]) == v';
          assert key(elements[i]) == k' && value(elements[i]) == v';
        }
      }
    }
  }

  lemma {:induction false} InsertAllGrows<T, K, V>(dest: LinkedSetMap<K, V>, elements: seq<T>, key: T -> K, value: T -> V)
    ensures forall k :: k in dest.entries ==>
      k in InsertAll(dest, elements, key, value).entries && dest.entries[k] <= InsertAll(dest, elements, key, value).entries[k]
    ensures forall k :: k in InsertAll(dest, elements, key, value).entries && k !in dest.entries ==>
      InsertAll(dest, elements, key, value).entries[k] != {}
    decreases |elements|
  {
    if elements != [] {
      InsertAllGrows(dest, elements[..|elements| - 1], key, value);
    }
  }

  /**
   * `groupBySetTo`: for each element in turn, get or create the set of its key and
   * add its value. The destination is passed in and returned by value.
   */
  method GroupBySetTo<T, K(==), V(==)>(elements: seq<T>, dest: LinkedSetMap<K, V>, key: T -> K, value: T -> V)
    returns (r: LinkedSetMap<K, V>)
    requires dest.Valid()
    ensures r.Valid()
    ensures forall k :: k in r.entries <==>
      k in dest.entries || exists i :: 0 <= i < |elements| && key(elements[i]) == k
    ensures forall k, v :: v in r.Get(k) <==>
      v in dest.Get(k) || exists i :: 0 <= i < |elements| && key(elements[i]) == k && value(elements[i]) == v
    ensures forall k :: k in dest.entries ==> k in r.entries && dest.entries[k] <= r.entries[k]
    ensures forall k :: k in r.entries && k !in dest.entries ==> r.entries[k] != {}
    ensures r.order == KeyOrder(dest.order, KeysOf(elements, key))
  {
    r := dest;
    var n := 0;
    while n < |elements|
      invariant 0 <= n <= |elements|
      invariant r == InsertAll(dest, elements[..n], key, value)
    {
      var e := elements[n];
      var k := key(e);
      assert elements[..n + 1][..n] == elements[..n];
      if k !in r.entries {
        r := LinkedSetMap(r.order + [k], r.entries[k := {}]);
      }
      r := r.(entries := r.entries[k := r.entries[k] + {value(e)}]);
      n := n + 1;
    }
    assert elements[..n] == elements;
    InsertAllOrder(dest, elements, key, value);
    InsertAllKeys(dest, elements, key, value);
    InsertAllValues(dest, elements, key, value);
    InsertAllGrows(dest, elements, key, value);
  }

  /** `groupBySet`: `groupBySetTo` into a fresh `LinkedHashMap`. */
  method GroupBySet<T, K(==), V(==)>(elements: seq<T>, key: T -> K, value: T -> V) returns (r: LinkedSetMap<K, V>)
    ensures r.Valid()
    ensures forall k :: k in r.entries <==> exists i :: 0 <= i < |elements| && key(elements[i]) == k
    ensures forall k, v :: v in r.Get(k) <==>
      exists i :: 0 <= i < |elements| && key(elements[i]) == k && value(elements[i]) == v
    ensures forall k :: k in r.entries ==> r.entries[k] != {}
    ensures r.order == KeyOrder([], KeysOf(elements, key))
  {
    r := GroupBySetTo(elements, Empty(), key, value);
  }

  /** `Point.coord()`: the "(x, y)" rendering of a point. */
  function Coord(p: Points.Point): (s: string)
    ensures s == "(" + Decimal.IntToString(p.x) + ", " + Decimal.IntToString(p.y) + ")"
    ensures s == Points.ToString(p)
    ensures forall q: Points.Point :: Points.Format(q.x, q.y) == s ==> q == p
  {
    Points.FormatInjective(p.x, p.y, p.x, p.y);
    assert forall q: Points.Point :: Points.Format(q.x, q.y) == Points.Format(p.x, p.y) ==> q == p by {
      forall q: Points.Point | Points.Format(q.x, q.y) == Points.Format(p.x, p.y) ensures q == p {
        Points.FormatInjective(q.x, q.y, p.x, p.y);
      }
    }
    Points.Format(p.x, p.y)
  }

  /** Two points with the same `coord()` are the same point. */
  lemma CoordInjective(p: Points.Point, q: Points.Point)
    requires Coord(p) == Coord(q)
    ensures p == q
  {
    Points.ToStringInjective(p, q);
  }
}
