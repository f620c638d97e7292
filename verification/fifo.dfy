/** A map and a queue that lists its keys, oldest first, each exactly once. */
module FifoOrder {
  ghost predicate NoDuplicates<T>(s: seq<T>) {
    forall i, j :: 0 <= i < j < |s| ==> s[i] != s[j]
  }

  /** Remove the first occurrence. */
  function Unlist<T(==)>(s: seq<T>, x: T): seq<T> {
    if s == [] then [] else if s[0] == x then s[1..] else [s[0]] + Unlist(s[1..], x)
  }

  ghost predicate Lists<K(!new), V>(order: seq<K>, m: map<K, V>) {
    && NoDuplicates(order)
    && (forall k :: k in m <==> k in order)
  }

  lemma {:induction false} UnlistMembers<T(!new)>(s: seq<T>, x: T)
    requires NoDuplicates(s)
    ensures NoDuplicates(Unlist(s, x))
    ensures forall y :: y in Unlist(s, x) <==> y in s && y != x
  {
    if s != [] {
      var rest := s[1..];
      assert NoDuplicates(rest);
      assert forall y :: y in s <==> y == s[0] || y in rest;
      if s[0] != x {
        UnlistMembers(rest, x);
        var r := Unlist(rest, x);
        assert s[0] !in r;
        assert forall y :: y in [s[0]] + r <==> y == s[0] || y in r;
      }
    }
  }

  /** The queue is as long as the map is large. */
  lemma {:induction false} ListsSize<K(!new), V>(order: seq<K>, m: map<K, V>)
    requires Lists(order, m)
    ensures |order| == |m|
    decreases |order|
  {
    if order == [] {
      assert m.Keys == {};
    } else {
      var k := order[0];
      assert k in order;
      assert forall y :: y in order <==> y == k || y in order[1..];
      assert Lists(order[1..], m - {k});
      assert m.Keys == (m - {k}).Keys + {k};
      ListsSize(order[1..], m - {k});
    }
  }

  lemma ListsRemove<K(!new), V>(order: seq<K>, m: map<K, V>, k: K)
    requires Lists(order, m)
    ensures Lists(Unlist(order, k), m - {k})
    ensures |m - {k}| == |m| - if k in m then 1 else 0
  {
    hide Unlist, NoDuplicates;
    UnlistMembers(order, k);
    RemovedSize(m, k);
  }

  lemma RemovedSize<K, V>(m: map<K, V>, k: K)
    ensures |m - {k}| == |m| - if k in m then 1 else 0
  {
    if k in m {
      assert m.Keys == (m - {k}).Keys + {k};
    } else {
      assert m - {k} == m;
    }
  }

  lemma ListsAdd<K(!new), V>(order: seq<K>, m: map<K, V>, k: K, v: V)
    requires Lists(order, m) && k !in m
    ensures Lists(order + [k], m[k := v])
    ensures |m[k := v]| == |m| + 1
  {
    assert forall y :: y in order + [k] <==> y in order || y == k;
    assert m[k := v].Keys == m.Keys + {k};
  }

  lemma ListsSet<K(!new), V>(order: seq<K>, m: map<K, V>, k: K, v: V)
    requires Lists(order, m) && k in m
    ensures Lists(order, m[k := v])
    ensures |m[k := v]| == |m|
  {
    assert m[k := v].Keys == m.Keys;
  }

  lemma FirstListed<K(!new), V>(order: seq<K>, m: map<K, V>)
    requires Lists(order, m) && |m| > 0
    ensures order != [] && order[0] in m && Unlist(order, order[0]) == order[1..]
  {
    ListsSize(order, m);
    assert order[0] in order;
  }

  // ---------- How long a key stays ----------

  /** Everything that stands behind a key in the queue belongs to a set. */
  ghost predicate OnlyBehind<K>(order: seq<K>, key: K, later: set<K>) {
    forall i, j :: 0 <= i < j < |order| && order[i] == key ==> order[j] in later
  }

  lemma {:induction false} UnlistBehind<K(!new)>(order: seq<K>, key: K, later: set<K>, x: K)
    requires NoDuplicates(order) && OnlyBehind(order, key, later)
    ensures OnlyBehind(Unlist(order, x), key, later)
    decreases |order|
  {
    if order != [] && order[0] != x {
      var rest := order[1..];
      assert OnlyBehind(rest, key, later);
      UnlistBehind(rest, key, later, x);
      UnlistMembers(rest, x);
      var r := Unlist(rest, x);
      forall i, j | 0 <= i < j < |[order[0]] + r| && ([order[0]] + r)[i] == key ensures ([order[0]] + r)[j] in later {
        assert r[j - 1] in r;
        if i == 0 {
          var k :| 0 <= k < |rest| && rest[k] == r[j - 1];
          assert order[k + 1] in later;
        }
      }
    }
  }

  lemma AppendBehind<K>(order: seq<K>, key: K, later: set<K>, x: K)
    requires OnlyBehind(order, key, later)
    requires key in order ==> x in later
    ensures OnlyBehind(order + [x], key, later)
  {
  }

  lemma {:induction false} DistinctFit<K>(s: seq<K>, all: set<K>)
    requires NoDuplicates(s) && forall x :: x in s ==> x in all
    ensures |s| <= |all|
    decreases |s|
  {
    if s != [] {
      var rest := s[1..];
      assert forall x :: x in rest ==> x in all - {s[0]};
      DistinctFit(rest, all - {s[0]});
    }
  }

  /**
   A key is not the oldest of a full table when another one enters, as long as
   fewer keys came after it than the table has places.
   */
  lemma OldestIsAnother<K(!new), V>(order: seq<K>, m: map<K, V>, key: K, later: set<K>, x: K)
    requires Lists(order, m) && OnlyBehind(order, key, later)
    requires x !in m && x in later && |later| < |m|
    ensures order != [] && order[0] != key
  {
    ListsSize(order, m);
    if order[0] == key {
      var behind := order[1..] + [x];
      forall i, j | 0 <= i < j < |behind| ensures behind[i] != behind[j] {
        if j == |order| - 1 {
          assert order[i + 1] in order;
        }
      }
      assert forall y :: y in behind ==> y in later;
      DistinctFit(behind, later);
    }
  }

  lemma SubtractTwice<K, V>(m: map<K, V>, a: set<K>, b: set<K>)
    ensures m - a - b == m - (a + b)
  {
  }
}

/**
 The table that RTPS samples, IP datagrams and TCP flows are kept in: when it is
 full, a new key costs the oldest its place. How long a key keeps its place, and
 how many others it takes to lose it.
 */
module FlowTables {
  import opened FifoOrder

  datatype Table<K, V> = Table(flows: map<K, V>, order: seq<K>)

  ghost predicate Bounded<K(!new), V>(t: Table<K, V>, capacity: nat) {
    Lists(t.order, t.flows) && |t.flows| <= capacity
  }

  function Remove<K, V>(t: Table<K, V>, key: K): Table<K, V> {
    Table(t.flows - {key}, Unlist(t.order, key))
  }

  /** Make room for one more key: the oldest goes when the table is full. */
  function Evict<K, V>(t: Table<K, V>, capacity: nat): Table<K, V> {
    if |t.flows| >= capacity && t.order != [] then Remove(t, t.order[0]) else t
  }

  /** A table without this key makes room for it and lists it. */
  function Enter<K, V>(t: Table<K, V>, capacity: nat, key: K, v: V): Table<K, V> {
    if key in t.flows then t
    else
      var room := Evict(t, capacity);
      Table(room.flows[key := v], room.order + [key])
  }

  lemma BoundedSize<K(!new), V>(t: Table<K, V>, capacity: nat)
    requires Bounded(t, capacity)
    ensures |t.flows| <= capacity
  {
  }

  lemma BoundedRemove<K(!new), V>(t: Table<K, V>, capacity: nat, key: K)
    requires Bounded(t, capacity)
    ensures Bounded(Remove(t, key), capacity)
    ensures key in t.flows ==> |Remove(t, key).flows| == |t.flows| - 1
  {
    hide Lists, Unlist;
    ListsRemove(t.order, t.flows, key);
  }

  /** After making room, a table of non-zero capacity has room. */
  lemma BoundedEvict<K(!new), V>(t: Table<K, V>, capacity: nat)
    requires Bounded(t, capacity) && capacity > 0
    ensures Bounded(Evict(t, capacity), capacity) && |Evict(t, capacity).flows| < capacity
    ensures forall k :: k in Evict(t, capacity).flows ==> k in t.flows && Evict(t, capacity).flows[k] == t.flows[k]
  {
    hide Lists, Unlist;
    if |t.flows| >= capacity {
      FirstListed(t.order, t.flows);
      BoundedRemove(t, capacity, t.order[0]);
    }
  }

  lemma BoundedEnter<K(!new), V>(t: Table<K, V>, capacity: nat, key: K, v: V)
    requires Bounded(t, capacity) && capacity > 0
    ensures var t' := Enter(t, capacity, key, v);
            && Bounded(t', capacity) && key in t'.flows
            && t'.flows[key] == (if key in t.flows then t.flows[key] else v)
            && forall k :: k in t'.flows && k != key ==> k in t.flows && t'.flows[k] == t.flows[k]
  {
    hide Lists, Unlist, Evict;
    if key !in t.flows {
      BoundedEvict(t, capacity);
      var room := Evict(t, capacity);
      ListsAdd(room.order, room.flows, key, v);
    }
  }

  lemma BoundedSet<K(!new), V>(t: Table<K, V>, capacity: nat, key: K, v: V)
    requires Bounded(t, capacity) && key in t.flows
    ensures Bounded(t.(flows := t.flows[key := v]), capacity)
  {
    ListsSet(t.order, t.flows, key, v);
    hide Lists;
  }

  // ---------- How long a key keeps its place ----------

  /** A key keeps its flow and its place while fewer keys came after it than the table has places. */
  lemma EnterOthers<K(!new), V>(t: Table<K, V>, capacity: nat, other: K, v: V, key: K, later: set<K>)
    requires Bounded(t, capacity) && OnlyBehind(t.order, key, later) && |later| < capacity
    requires other != key && other in later
    ensures var t' := Enter(t, capacity, other, v);
            && (key in t'.flows <==> key in t.flows) && (key in t.flows ==> t'.flows[key] == t.flows[key])
            && OnlyBehind(t'.order, key, later)
  {
    hide Unlist, OnlyBehind;
    if other !in t.flows {
      if |t.flows| >= capacity {
        OldestIsAnother(t.order, t.flows, key, later, other);
        UnlistBehind(t.order, key, later, t.order[0]);
      }
      AppendBehind(Evict(t, capacity).order, key, later, other);
    }
  }

  /** A key that enters stands at the end of the queue. */
  lemma EnterPlace<K(!new), V>(t: Table<K, V>, capacity: nat, key: K, v: V, later: set<K>)
    requires Bounded(t, capacity) && OnlyBehind(t.order, key, later)
    ensures OnlyBehind(Enter(t, capacity, key, v).order, key, later)
  {
    hide Unlist;
    if key !in t.flows {
      if t.order != [] {
        UnlistMembers(t.order, t.order[0]);
      }
      assert key !in Evict(t, capacity).order;
    }
  }

  lemma RemovePlace<K(!new), V>(t: Table<K, V>, capacity: nat, other: K, key: K, later: set<K>)
    requires Bounded(t, capacity) && OnlyBehind(t.order, key, later)
    ensures OnlyBehind(Remove(t, other).order, key, later)
  {
    UnlistBehind(t.order, key, later, other);
    hide Unlist, OnlyBehind;
  }

  /** Nothing stands behind a key that is not listed. */
  lemma NotListed<K(!new), V>(t: Table<K, V>, capacity: nat, key: K, later: set<K>)
    requires Bounded(t, capacity) && key !in t.flows
    ensures OnlyBehind(t.order, key, later)
  {
    assert key !in t.order;
  }

  /** A key that enters costs another its place exactly when the table is full and the other the oldest. */
  lemma LostOnEnter<K(!new), V>(t: Table<K, V>, capacity: nat, other: K, v: V, key: K)
    requires Bounded(t, capacity) && key in t.flows && other != key
    ensures key !in Enter(t, capacity, other, v).flows <==>
            other !in t.flows && |t.flows| == capacity && t.order[0] == key
  {
    hide Unlist;
    ListsSize(t.order, t.flows);
  }

  // ---------- How many keys it takes ----------

  /** A table with the same value under every key. */
  ghost function Alike<K, V>(order: seq<K>, v: V): Table<K, V> {
    Table(map k | k in order :: v, order)
  }

  lemma AlikeSize<K(!new), V>(order: seq<K>, v: V)
    requires NoDuplicates(order)
    ensures Lists(order, Alike(order, v).flows) && |Alike(order, v).flows| == |order|
    ensures |set k | k in order| == |order|
  {
    ListsSize(order, Alike(order, v).flows);
    assert Alike(order, v).flows.Keys == set k | k in order;
  }

  /** The queue once there is room for one more key. */
  ghost function Left<K>(order: seq<K>, capacity: nat): seq<K> {
    if |order| >= capacity && order != [] then order[1..] else order
  }

  lemma AlikeEvict<K(!new), V>(order: seq<K>, v: V, capacity: nat)
    requires NoDuplicates(order)
    ensures Evict(Alike(order, v), capacity) == Alike(Left(order, capacity), v)
  {
    AlikeSize(order, v);
    var left := Left(order, capacity);
    if left != order {
      forall k ensures k in left <==> k in order && k != order[0] {
        if k in order && k != order[0] {
          var i :| 0 <= i < |order| && order[i] == k;
          assert left[i - 1] == k;
        }
      }
      assert (map k | k in order :: v) - {order[0]} == map k | k in left :: v;
    }
  }

  lemma AlikeSet<K(!new), V>(order: seq<K>, v: V, key: K, w: V)
    ensures Table(Alike(order, v).flows[key := w], order + [key]).(flows := Alike(order, v).flows[key := w][key := v])
         == Alike(order + [key], v)
  {
  }

  /** One more key enters: while there is room the others stay, in a full table the oldest goes. */
  lemma AlikeEnter<K(!new), V>(order: seq<K>, v: V, capacity: nat, key: K, w: V)
    requires NoDuplicates(order) && key !in order
    ensures var t := Enter(Alike(order, v), capacity, key, w);
            && key in t.flows && t.flows[key] == w
            && t.(flows := t.flows[key := v]) == Alike(Left(order, capacity) + [key], v)
  {
    AlikeEvict(order, v, capacity);
    AlikeSet(Left(order, capacity), v, key, w);
    hide Evict, Left;
  }

  /** The queue after a key and then the first n of others, as many as there are places, have entered. */
  ghost function Crowding<K>(key: K, others: seq<K>, n: nat): seq<K>
    requires n <= |others|
  {
    if n < |others| then [key] + others[..n] else others
  }

  /** Each of the others gets a place, the last one that of the key. */
  lemma CrowdingStep<K(!new)>(key: K, others: seq<K>, n: nat)
    requires NoDuplicates(others) && key !in others && n < |others|
    ensures var order := Crowding(key, others, n);
            && NoDuplicates(order) && others[n] !in order
            && Left(order, |others|) + [others[n]] == Crowding(key, others, n + 1)
  {
    assert forall k :: k in others[..n] ==> k in others;
    assert others[..n] + [others[n]] == others[..n + 1];
    assert others[..|others|] == others;
  }
}
