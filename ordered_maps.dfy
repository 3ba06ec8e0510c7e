/** PHP arrays and ThreadSafeArrays keyed by strings are insertion-ordered
    maps: assigning to a present key keeps its place, assigning to a new key
    appends it, and unset removes it. Iteration follows that order. */
module OrderedMaps {
  import opened Options

  datatype OrderedMap<K(==,!new), V> = OrderedMap(order: seq<K>, items: map<K, V>)
  {
    /** The keys are listed once each, and exactly the keys of `items` are listed. */
    ghost predicate Valid()
    {
      && Distinct(order)
      && (forall k :: k in items <==> k in order)
    }

    function Get(k: K): (r: Option<V>)
      ensures r.Some? <==> k in items
      ensures r.Some? ==> r.value == items[k]
    {
      if k in items then Some(items[k]) else None
    }

    /** `$a[$k] = $v` */
    function Put(k: K, v: V): (r: OrderedMap<K, V>)
      requires Valid()
      ensures r.Valid()
      ensures r.items == items[k := v]
      ensures r.order == if k in items then order else order + [k]
    {
      if k in items then OrderedMap(order, items[k := v])
      else OrderedMap(order + [k], items[k := v])
    }

    /** `unset($a[$k])` */
    function Remove(k: K): (r: OrderedMap<K, V>)
      requires Valid()
      ensures r.Valid()
      ensures r.items == items - {k}
      ensures r.order == Without(order, {k})
    {
      WithoutMembers(order, {k});
      WithoutDistinct(order, {k});
      OrderedMap(Without(order, {k}), items - {k})
    }

    /** `array_diff_key($this, $other)`: the entries whose key `other` lacks, in this order. */
    function DiffKey<W>(other: OrderedMap<K, W>): (r: OrderedMap<K, V>)
      requires Valid()
      ensures r.Valid()
      ensures r.items.Keys == items.Keys - other.items.Keys
      ensures forall k :: k in r.items ==> r.items[k] == items[k]
      ensures r.order == Without(order, other.items.Keys)
    {
      WithoutMembers(order, other.items.Keys);
      WithoutDistinct(order, other.items.Keys);
      OrderedMap(Without(order, other.items.Keys), items - other.items.Keys)
    }

    /** The values in iteration order. */
    function Values(): (r: seq<V>)
      requires Valid()
      ensures |r| == |order|
      ensures forall i :: 0 <= i < |order| ==> r[i] == items[order[i]]
    {
      seq(|order|, i requires 0 <= i < |order| => items[order[i]])
    }
  }

  function Empty<K(==,!new), V>(): (r: OrderedMap<K, V>)
    ensures r.Valid() && r.items == map[] && r.order == []
  {
    OrderedMap([], map[])
  }

  /** `s` with the members of `drop` taken out, the rest in their order. */
  function Without<K(==)>(s: seq<K>, drop: set<K>): seq<K>
  {
    if s == [] then []
    else if s[0] in drop then Without(s[1..], drop)
    else [s[0]] + Without(s[1..], drop)
  }

  lemma {:induction false} WithoutMembers<K>(s: seq<K>, drop: set<K>)
    ensures forall k :: k in Without(s, drop) <==> k in s && k !in drop
  {
    if s != [] {
      WithoutMembers(s[1..], drop);
      assert forall k :: k in s <==> k == s[0] || k in s[1..];
    }
  }

  ghost predicate Distinct<K>(s: seq<K>)
  {
    forall i, j :: 0 <= i < j < |s| ==> s[i] != s[j]
  }

  lemma {:induction false} WithoutDistinct<K>(s: seq<K>, drop: set<K>)
    requires Distinct(s)
    ensures Distinct(Without(s, drop))
  {
    if s != [] {
      var tail := Without(s[1..], drop);
      WithoutDistinct(s[1..], drop);
      WithoutMembers(s[1..], drop);
      assert s[0] !in s[1..] by {
        forall i | 0 <= i < |s[1..]| ensures s[1..][i] != s[0] {
          assert s[1..][i] == s[i + 1];
        }
      }
      if s[0] !in drop {
        var r := [s[0]] + tail;
        assert Without(s, drop) == r;
        forall i, j | 0 <= i < j < |r| ensures r[i] != r[j] {
          assert r[j] == tail[j - 1];
          if i > 0 {
            assert r[i] == tail[i - 1];
          } else {
            assert tail[j - 1] in tail;
          }
        }
      } else {
        assert Without(s, drop) == tail;
      }
    }
  }
}
