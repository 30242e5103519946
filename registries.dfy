/** The two global registries: every renderable is kept in a bucket for its
    render order, and RenderAllGUI draws the enabled ones bucket by bucket in
    ascending order; every updateable is kept in one vector, and UpdateAll
    updates the enabled ones in registration order. Registered objects are
    named by their identity, so the registries hold ids and the draw and update
    calls are modelled by the sequence of ids they reach. */
module Registries {
  import opened Containers

  // ---------------------------------------------------------------------------
  // Removing an entry from a vector

  lemma NoDuplicatesSnoc(s: seq<Id>, x: Id)
    ensures NoDuplicates(s) && x !in s ==> NoDuplicates(s + [x])
  {
  }

  /** The erase-remove idiom: every occurrence of x dropped. */
  function Erase(s: seq<Id>, x: Id): (r: seq<Id>)
    ensures |r| <= |s|
  {
    if s == [] then []
    else
      var init, last := s[..|s| - 1], s[|s| - 1];
      Erase(init, x) + (if last == x then [] else [last])
  }

  /** Erase drops every x and keeps every other entry as often as s holds it. */
  lemma {:induction false} EraseCounts(s: seq<Id>, x: Id)
    ensures multiset(Erase(s, x)) == multiset(s)[x := 0]
    ensures |Erase(s, x)| == |s| - multiset(s)[x]
  {
    if s != [] {
      var init, last := s[..|s| - 1], s[|s| - 1];
      assert s == init + [last];
      EraseCounts(init, x);
    }
  }

  /** Erasing an absent entry changes nothing. */
  lemma {:induction false} EraseAbsent(s: seq<Id>, x: Id)
    requires x !in s
    ensures Erase(s, x) == s
  {
    if s != [] {
      var init, last := s[..|s| - 1], s[|s| - 1];
      assert s == init + [last];
      EraseAbsent(init, x);
    }
  }

  /** Erasing keeps a list free of duplicates. */
  lemma {:induction false} EraseDistinct(s: seq<Id>, x: Id)
    requires NoDuplicates(s)
    ensures NoDuplicates(Erase(s, x))
  {
    if s != [] {
      var init, last := s[..|s| - 1], s[|s| - 1];
      assert s == init + [last];
      EraseDistinct(init, x);
      EraseCounts(init, x);
      assert last !in init;
      assert last !in multiset(Erase(init, x));
      NoDuplicatesSnoc(Erase(init, x), last);
    }
  }

  /** Erase keeps every other entry, as often as s holds it, and no x. */
  lemma EraseContents(s: seq<Id>, x: Id)
    ensures forall y :: y in Erase(s, x) <==> y in s && y != x
    ensures forall y | y != x :: multiset(Erase(s, x))[y] == multiset(s)[y]
    ensures |Erase(s, x)| == |s| - multiset(s)[x]
    ensures x !in s ==> Erase(s, x) == s
    ensures NoDuplicates(s) ==> NoDuplicates(Erase(s, x))
  {
    EraseCounts(s, x);
    if x !in s {
      EraseAbsent(s, x);
    }
    if NoDuplicates(s) {
      EraseDistinct(s, x);
    }
    EraseMembers(s, x);
  }

  /** Erase keeps exactly the elements other than x. */
  lemma EraseMembers(s: seq<Id>, x: Id)
    ensures forall y :: y in Erase(s, x) <==> y in s && y != x
  {
    EraseCounts(s, x);
    forall y
      ensures y in Erase(s, x) <==> y in s && y != x
    {
      assert y in Erase(s, x) <==> y in multiset(Erase(s, x));
      assert y in s <==> y in multiset(s);
    }
  }

  /** Erasing distributes over concatenation, so the entries that stay keep
      their relative order. */
  lemma {:induction false} EraseAppend(s: seq<Id>, t: seq<Id>, x: Id)
    ensures Erase(s + t, x) == Erase(s, x) + Erase(t, x)
    decreases |t|
  {
    if t == [] {
      assert s + t == s;
    } else {
      var init, last := t[..|t| - 1], t[|t| - 1];
      assert (s + t)[..|s + t| - 1] == s + init;
      assert (s + t)[|s + t| - 1] == last;
      EraseAppend(s, init, x);
    }
  }

  /** std::remove on its own, as both registries call it: the kept entries are
      moved to the front and the vector keeps its length. The positions past the
      new logical end are left as they were (what the common standard library
      implementations do; the standard only says they are unspecified). */
  function RemoveAsWritten(s: seq<Id>, x: Id): (r: seq<Id>)
    ensures |r| == |s|
    ensures r[..|Erase(s, x)|] == Erase(s, x)
    ensures x in s ==> r != Erase(s, x)
  {
    EraseContents(s, x);
    var e := Erase(s, x);
    e + s[|e|..]
  }

  /** Removing the last entry leaves the vector as it was: the entry removed is
      still there. */
  lemma RemoveAsWrittenKeepsLast(a: Id, x: Id)
    requires a != x
    ensures Erase([a, x], x) == [a]
    ensures RemoveAsWritten([a, x], x) == [a, x]
  {
    assert [a, x][..1] == [a];
    assert [a][..0] == [];
    assert Erase([a], x) == [a];
  }

  /** Removing the first of two entries duplicates the second. */
  lemma RemoveAsWrittenDuplicates(x: Id, b: Id)
    requires x != b
    ensures Erase([x, b], x) == [b]
    ensures RemoveAsWritten([x, b], x) == [b, b]
  {
    assert [x, b][..1] == [x];
    assert [x][..0] == [];
    assert Erase([x], x) == [];
  }

  // ---------------------------------------------------------------------------
  // The entries a pass reaches

  predicate IsOn(enabled: map<Id, bool>, y: Id)
  {
    y in enabled && enabled[y]
  }

  /** The entries of s that are enabled, in the order of s: the receivers of one
      pass that skips disabled entries. */
  function Active(s: seq<Id>, enabled: map<Id, bool>): seq<Id>
  {
    if s == [] then []
    else
      var init, last := s[..|s| - 1], s[|s| - 1];
      Active(init, enabled) + (if IsOn(enabled, last) then [last] else [])
  }

  /** A pass reaches the enabled entries of s, each as often as s holds it,
      and nothing else. */
  lemma {:induction false} ActiveContents(s: seq<Id>, enabled: map<Id, bool>)
    ensures forall y :: y in Active(s, enabled) <==> y in s && IsOn(enabled, y)
    ensures forall y :: multiset(Active(s, enabled))[y] == (if IsOn(enabled, y) then multiset(s)[y] else 0)
  {
    if s != [] {
      var init, last := s[..|s| - 1], s[|s| - 1];
      assert s == init + [last];
      ActiveContents(init, enabled);
    }
  }

  /** A pass over s + t is a pass over s followed by a pass over t. */
  lemma {:induction false} ActiveAppend(s: seq<Id>, t: seq<Id>, enabled: map<Id, bool>)
    ensures Active(s + t, enabled) == Active(s, enabled) + Active(t, enabled)
    decreases |t|
  {
    if t == [] {
      assert s + t == s;
    } else {
      var init, last := t[..|t| - 1], t[|t| - 1];
      assert (s + t)[..|s + t| - 1] == s + init;
      assert (s + t)[|s + t| - 1] == last;
      ActiveAppend(s, init, enabled);
    }
  }

  /** One more entry: a pass reaches it last, if it is enabled. */
  lemma ActiveSnoc(s: seq<Id>, x: Id, enabled: map<Id, bool>)
    ensures Active(s + [x], enabled) == Active(s, enabled) + (if IsOn(enabled, x) then [x] else [])
  {
    assert (s + [x])[..|s + [x]| - 1] == s;
  }

  /** Entries a pass skips do not depend on their flag... and entries outside s
      do not matter at all. */
  lemma {:induction false} ActiveIgnoresOthers(s: seq<Id>, enabled: map<Id, bool>, u: Id, e: bool)
    requires u !in s
    ensures Active(s, enabled[u := e]) == Active(s, enabled)
  {
    if s != [] {
      ActiveIgnoresOthers(s[..|s| - 1], enabled, u, e);
    }
  }

  lemma {:induction false} NoDuplicatesCount(s: seq<Id>)
    requires NoDuplicates(s)
    ensures forall y :: multiset(s)[y] == if y in s then 1 else 0
  {
    if s != [] {
      var init, last := s[..|s| - 1], s[|s| - 1];
      assert s == init + [last];
      NoDuplicatesCount(init);
      assert last !in init;
    }
  }

  // ---------------------------------------------------------------------------
  // The render registry

  /** The bucket of order k; operator[] default-constructs a missing one. */
  function Bucket(buckets: map<int, seq<Id>>, k: int): seq<Id>
  {
    if k in buckets then buckets[k] else []
  }

  /** _Add: append r to the bucket of order k, creating the bucket if needed. */
  function Push(buckets: map<int, seq<Id>>, k: int, r: Id): (b: map<int, seq<Id>>)
    ensures b.Keys == buckets.Keys + {k}
    ensures b[k] == Bucket(buckets, k) + [r]
    ensures forall j | j in buckets && j != k :: b[j] == buckets[j]
  {
    buckets[k := Bucket(buckets, k) + [r]]
  }

  /** A set that is not empty has an element to pick. */
  lemma Inhabited(keys: set<int>)
    ensures keys == {} || exists x :: x in keys
  {
    if forall x :: x !in keys {
      assert keys == {};
    }
  }

  predicate IsLeast(k: int, keys: set<int>)
  {
    k in keys && forall j | j in keys :: k <= j
  }

  lemma {:induction false} LeastExists(keys: set<int>)
    requires keys != {}
    ensures exists k :: IsLeast(k, keys)
    decreases |keys|
  {
    Inhabited(keys);
    var x :| x in keys;
    var rest := keys - {x};
    assert keys == rest + {x};
    if rest == {} {
      assert IsLeast(x, keys);
    } else {
      LeastExists(rest);
      var m :| IsLeast(m, rest);
      if x < m {
        assert IsLeast(x, keys);
      } else {
        assert IsLeast(m, keys);
      }
    }
  }

  /** The smallest key: the one std::map visits first. */
  ghost function Least(keys: set<int>): (k: int)
    requires keys != {}
    ensures IsLeast(k, keys)
    ensures forall j | IsLeast(j, keys) :: j == k
  {
    LeastExists(keys);
    var k :| IsLeast(k, keys);
    k
  }

  /** What one RenderAllGUI pass draws from the buckets whose orders are in
      keys: the map is iterated in ascending key order and each bucket in
      vector order, skipping disabled entries. */
  ghost function DrawOrder(buckets: map<int, seq<Id>>, enabled: map<Id, bool>, keys: set<int>): seq<Id>
    requires keys <= buckets.Keys
    decreases keys
  {
    if keys == {} then []
    else
      var k := Least(keys);
      Active(buckets[k], enabled) + DrawOrder(buckets, enabled, keys - {k})
  }

  /** Every entry of bucket k has order k. */
  ghost predicate Filed(buckets: map<int, seq<Id>>, order: map<Id, int>)
  {
    forall k, r | k in buckets && r in buckets[k] :: r in order && order[r] == k
  }

  /** Every registered entry sits in the bucket of its order, once. */
  ghost predicate Found(buckets: map<int, seq<Id>>, order: map<Id, int>)
  {
    (forall k | k in buckets :: NoDuplicates(buckets[k]))
    && (forall r | r in order :: order[r] in buckets && r in buckets[order[r]])
  }

  /** Every entry of d is registered, under an order among keys. */
  ghost predicate FiledUnder(d: seq<Id>, order: map<Id, int>, keys: set<int>)
  {
    forall p | 0 <= p < |d| :: d[p] in order && order[d[p]] in keys
  }

  /** The render orders of the entries of d never decrease. */
  ghost predicate Ascending(d: seq<Id>, order: map<Id, int>)
  {
    (forall p | 0 <= p < |d| :: d[p] in order)
    && forall p, q | 0 <= p < q < |d| :: order[d[p]] <= order[d[q]]
  }

  lemma AscendingConcat(a: seq<Id>, rest: seq<Id>, order: map<Id, int>, k: int, keys: set<int>)
    requires forall y | y in a :: y in order && order[y] == k
    requires FiledUnder(rest, order, keys) && Ascending(rest, order)
    requires forall j | j in keys :: k <= j
    ensures FiledUnder(a + rest, order, keys + {k}) && Ascending(a + rest, order)
  {
    var d := a + rest;
    forall p | 0 <= p < |d|
      ensures d[p] in order && order[d[p]] in keys + {k}
    {
      if p < |a| { assert d[p] in a; } else { assert d[p] == rest[p - |a|]; }
    }
    forall p, q | 0 <= p < q < |d|
      ensures order[d[p]] <= order[d[q]]
    {
      if q < |a| {
        assert d[p] in a && d[q] in a;
      } else if p < |a| {
        assert d[p] in a && d[q] == rest[q - |a|];
      } else {
        assert d[p] == rest[p - |a|] && d[q] == rest[q - |a|];
      }
    }
  }

  /** A pass draws in ascending render order: everything it draws was filed under
      one of the keys visited, and a lower order is never drawn after a higher one. */
  lemma {:induction false} DrawOrderSorted(buckets: map<int, seq<Id>>, enabled: map<Id, bool>, order: map<Id, int>, keys: set<int>)
    requires keys <= buckets.Keys && Filed(buckets, order)
    ensures FiledUnder(DrawOrder(buckets, enabled, keys), order, keys)
    ensures Ascending(DrawOrder(buckets, enabled, keys), order)
    decreases keys
  {
    if keys != {} {
      var k := Least(keys);
      DrawOrderSorted(buckets, enabled, order, keys - {k});
      ActiveContents(buckets[k], enabled);
      assert keys - {k} + {k} == keys;
      AscendingConcat(Active(buckets[k], enabled), DrawOrder(buckets, enabled, keys - {k}), order, k, keys - {k});
    }
  }

  /** A pass draws each enabled registered entry whose order is among keys
      exactly once, and nothing else. */
  lemma {:induction false} DrawOrderOnce(buckets: map<int, seq<Id>>, enabled: map<Id, bool>, order: map<Id, int>, keys: set<int>)
    requires keys <= buckets.Keys && Filed(buckets, order) && Found(buckets, order)
    ensures forall y :: multiset(DrawOrder(buckets, enabled, keys))[y] == (if IsOn(enabled, y) && y in order && order[y] in keys then 1 else 0)
    decreases keys
  {
    if keys != {} {
      var k := Least(keys);
      DrawOrderOnce(buckets, enabled, order, keys - {k});
      NoDuplicatesCount(buckets[k]);
      ActiveContents(buckets[k], enabled);
      var a, rest := Active(buckets[k], enabled), DrawOrder(buckets, enabled, keys - {k});
      assert DrawOrder(buckets, enabled, keys) == a + rest;
      forall y
        ensures multiset(a + rest)[y] == (if IsOn(enabled, y) && y in order && order[y] in keys then 1 else 0)
      {
        assert multiset(a + rest)[y] == multiset(a)[y] + multiset(rest)[y];
        assert y in buckets[k] <==> y in order && order[y] == k;
      }
    }
  }

  /** Under the invariant a whole pass draws each enabled renderable exactly
      once, and no disabled one, in ascending render order. */
  lemma RenderOnce(buckets: map<int, seq<Id>>, order: map<Id, int>, enabled: map<Id, bool>)
    requires Registered(buckets, order, enabled)
    ensures forall r :: multiset(DrawOrder(buckets, enabled, buckets.Keys))[r] == if r in order && enabled[r] then 1 else 0
    ensures Ascending(DrawOrder(buckets, enabled, buckets.Keys), order)
  {
    DrawOrderOnce(buckets, enabled, order, buckets.Keys);
    DrawOrderSorted(buckets, enabled, order, buckets.Keys);
  }

  /** The bucket map after SetOrder as written: _Remove leaves the old bucket
      at its length, then _Add files the entry under its new order. */
  function SetOrderAsWritten(buckets: map<int, seq<Id>>, order: map<Id, int>, r: Id, o: int): (b: map<int, seq<Id>>)
    requires r in order
    ensures o in b && r in b[o]
    ensures order[r] != o ==> order[r] in b && |b[order[r]]| == |Bucket(buckets, order[r])|
  {
    var k := order[r];
    Push(buckets[k := RemoveAsWritten(Bucket(buckets, k), r)], o, r)
  }

  /** The render registry's invariant, on its three maps. */
  ghost predicate Registered(buckets: map<int, seq<Id>>, order: map<Id, int>, enabled: map<Id, bool>)
  {
    order.Keys == enabled.Keys && Filed(buckets, order) && Found(buckets, order)
  }

  /** r is in no bucket. */
  ghost predicate Unfiled(buckets: map<int, seq<Id>>, r: Id)
  {
    forall k | k in buckets :: r !in buckets[k]
  }

  /** Erasing r from the bucket of its order leaves every other entry filed
      where it was, and r nowhere. */
  lemma EraseFiled(buckets: map<int, seq<Id>>, order: map<Id, int>, r: Id)
    requires Filed(buckets, order) && r in order && order[r] in buckets
    ensures Filed(buckets[order[r] := Erase(buckets[order[r]], r)], order - {r})
    ensures Unfiled(buckets[order[r] := Erase(buckets[order[r]], r)], r)
  {
    var k0 := order[r];
    var e := Erase(buckets[k0], r);
    EraseMembers(buckets[k0], r);
    var b := buckets[k0 := e];
    var o := order - {r};
    forall k, y | k in b && y in b[k]
      ensures y in o && o[y] == k
    {
      if k == k0 {
        assert y in buckets[k0] && y != r;
      } else {
        assert y in buckets[k];
      }
    }
    forall k | k in b
      ensures r !in b[k]
    {
      if k != k0 { assert b[k] == buckets[k]; }
    }
  }

  /** ... and every other registered entry still found in the bucket of its
      order, once. */
  lemma EraseFound(buckets: map<int, seq<Id>>, order: map<Id, int>, r: Id)
    requires Found(buckets, order) && r in order
    ensures Found(buckets[order[r] := Erase(buckets[order[r]], r)], order - {r})
  {
    var k0 := order[r];
    var e := Erase(buckets[k0], r);
    EraseContents(buckets[k0], r);
    var b := buckets[k0 := e];
    var o := order - {r};
    forall k | k in b
      ensures NoDuplicates(b[k])
    {
      if k != k0 { assert b[k] == buckets[k]; }
    }
    forall y | y in o
      ensures o[y] in b && y in b[o[y]]
    {
      if order[y] == k0 {
        assert y in buckets[k0] && y != r;
      } else {
        assert b[order[y]] == buckets[order[y]];
      }
    }
  }

  /** Erasing a registered entry from its bucket unregisters it. */
  lemma EraseKeeps(buckets: map<int, seq<Id>>, order: map<Id, int>, enabled: map<Id, bool>, r: Id)
    requires Registered(buckets, order, enabled) && r in order
    ensures Registered(buckets[order[r] := Erase(buckets[order[r]], r)], order - {r}, enabled - {r})
    ensures Unfiled(buckets[order[r] := Erase(buckets[order[r]], r)], r)
  {
    EraseFiled(buckets, order, r);
    EraseFound(buckets, order, r);
  }

  /** Refiling r under another order keeps the registry well formed. */
  lemma MoveKeeps(buckets: map<int, seq<Id>>, order: map<Id, int>, enabled: map<Id, bool>, r: Id, o: int)
    requires Registered(buckets, order, enabled) && r in order
    ensures Registered(Push(buckets[order[r] := Erase(buckets[order[r]], r)], o, r), order[r := o], enabled)
  {
    EraseKeeps(buckets, order, enabled, r);
    PushKeeps(buckets[order[r] := Erase(buckets[order[r]], r)], order - {r}, enabled - {r}, r, o, enabled[r]);
    Restored(order, r, o);
    Restored(enabled, r, enabled[r]);
  }

  /** Taking a key out and putting it back is one update. */
  lemma Restored<K, V>(m: map<K, V>, k: K, v: V)
    ensures (m - {k})[k := v] == m[k := v]
    ensures k in m && v == m[k] ==> m[k := v] == m
  {
  }

  /** Filing an unregistered entry under order k registers it. */
  lemma PushKeeps(buckets: map<int, seq<Id>>, order: map<Id, int>, enabled: map<Id, bool>, r: Id, k: int, e: bool)
    requires Registered(buckets, order, enabled) && r !in order
    ensures Registered(Push(buckets, k, r), order[r := k], enabled[r := e])
  {
    var b := Push(buckets, k, r);
    var o := order[r := k];
    assert r !in Bucket(buckets, k);
    NoDuplicatesSnoc(Bucket(buckets, k), r);
    forall j, y | j in b && y in b[j]
      ensures y in o && o[y] == j
    {
      if y != r {
        assert y in buckets[j];
      }
    }
    forall y | y in o
      ensures o[y] in b && y in b[o[y]]
    {
      if y != r {
        assert y in buckets[order[y]];
      }
    }
  }

  /** SetOrder as written can draw an entry twice: renderables 1 and 2 share
      order 0, renderable 2 moves to order 1, and the next pass draws 1, 2, 2. */
  lemma SetOrderAsWrittenDrawsTwice()
    ensures SetOrderAsWritten(map[0 := [1, 2]], map[1 := 0, 2 := 0], 2, 1) == map[0 := [1, 2], 1 := [2]]
    ensures DrawOrder(map[0 := [1, 2], 1 := [2]], map[1 := true, 2 := true], {0, 1}) == [1, 2, 2]
  {
    RemoveAsWrittenKeepsLast(1, 2);
    var b := map[0 := [1, 2], 1 := [2]];
    var en := map[1 := true, 2 := true];
    assert b.Keys == {0, 1};
    assert Least({0, 1}) == 0;
    assert Least({1}) == 1;
    assert {0, 1} - {0} == {1};
    assert {1} - {1} == {};
    assert [1, 2][..1] == [1] && [1][..0] == [];
    assert [2][..0] == [];
    assert Active([1, 2], en) == [1, 2];
    assert Active([2], en) == [2];
  }

  class RenderRegistry {
    /** Render order -> the renderables of that order, in registration order. */
    var buckets: map<int, seq<Id>>
    /** Each registered renderable's render order and enabled flag. */
    var order: map<Id, int>
    var enabled: map<Id, bool>

    ghost predicate Valid()
      reads this
    {
      Registered(buckets, order, enabled)
    }

    constructor()
      ensures Valid()
      ensures buckets == map[] && order == map[] && enabled == map[]
    {
      buckets, order, enabled := map[], map[], map[];
    }

    function GetOrder(r: Id): int
      reads this
      requires r in order
    {
      order[r]
    }

    function GetEnable(r: Id): bool
      reads this
      requires r in enabled
    {
      enabled[r]
    }

    /** _Add: file r under its current order. */
    method Add(r: Id)
      requires r in order
      modifies this
      ensures order == old(order) && enabled == old(enabled)
      ensures buckets == Push(old(buckets), order[r], r)
    {
      var k := order[r];
      if k !in buckets {
        buckets := buckets[k := []];
      }
      buckets := buckets[k := buckets[k] + [r]];
    }

    /** _Remove, erasing what it removes. */
    method Remove(r: Id)
      requires r in order
      modifies this
      ensures buckets == old(buckets)[old(order)[r] := Erase(Bucket(old(buckets), old(order)[r]), r)]
      ensures order == old(order) && enabled == old(enabled)
    {
      var k := order[r];
      var v := Bucket(buckets, k);
      buckets := buckets[k := Erase(v, r)];
    }

    /** The IRenderable constructor: register r with its order and flag. */
    method Register(r: Id, o: int, e: bool)
      requires Valid() && r !in order
      modifies this
      ensures Valid()
      ensures order == old(order)[r := o] && enabled == old(enabled)[r := e]
      ensures buckets == Push(old(buckets), o, r)
    {
      PushKeeps(buckets, order, enabled, r, o, e);
      order := order[r := o];
      enabled := enabled[r := e];
      Add(r);
    }

    /** The IRenderable destructor: r is no longer drawn. */
    method Unregister(r: Id)
      requires Valid() && r in order
      modifies this
      ensures Valid()
      ensures order == old(order) - {r} && enabled == old(enabled) - {r}
      ensures buckets == old(buckets)[old(order)[r] := Erase(old(buckets)[old(order)[r]], r)]
      ensures Unfiled(buckets, r)
    {
      EraseKeeps(buckets, order, enabled, r);
      Remove(r);
      order := order - {r};
      enabled := enabled - {r};
    }

    /** Move r to another render order: out of its old bucket, into the back of
      the new one. */
    method SetOrder(r: Id, o: int)
      requires Valid() && r in order
      modifies this
      ensures Valid()
      ensures order == old(order)[r := o] && enabled == old(enabled)
      ensures buckets == Push(old(buckets)[old(order)[r] := Erase(old(buckets)[old(order)[r]], r)], o, r)
    {
      MoveKeeps(buckets, order, enabled, r, o);
      ghost var b := buckets[order[r] := Erase(buckets[order[r]], r)];
      Remove(r);
      assert buckets == b;
      order := order[r := o];
      Add(r);
    }

    /** Change r's flag; a no-op when it already has that value. The OnEnable
        and OnDisable hooks are empty here. */
    method SetEnable(r: Id, e: bool)
      requires Valid() && r in order
      modifies this
      ensures Valid()
      ensures enabled == old(enabled)[r := e]
      ensures buckets == old(buckets) && order == old(order)
    {
      if enabled[r] == e {
        assert enabled == enabled[r := e];
        return;
      }
      enabled := enabled[r := e];
    }

    /** The inner loop of one pass: the enabled entries of one bucket, in order. */
    method DrawBucket(bucket: seq<Id>) returns (drawn: seq<Id>)
      ensures drawn == Active(bucket, enabled)
    {
      drawn := [];
      var i := 0;
      while i < |bucket|
        invariant i <= |bucket|
        invariant drawn == Active(bucket[..i], enabled)
      {
        var r := bucket[i];
        if r in enabled && enabled[r] {
          drawn := drawn + [r];
        }
        assert bucket[..i + 1] == bucket[..i] + [r];
        ActiveSnoc(bucket[..i], r, enabled);
        i := i + 1;
      }
      assert bucket[..i] == bucket;
    }

    /** One pass: the renderables whose RenderGUI is called, in call order.
        Under the invariant each enabled renderable is drawn exactly once, no
        disabled one is drawn, and render orders ascend. */
    method RenderAllGUI() returns (drawn: seq<Id>)
      ensures drawn == DrawOrder(buckets, enabled, buckets.Keys)
      ensures Valid() ==> forall r :: multiset(drawn)[r] == if r in order && enabled[r] then 1 else 0
      ensures Valid() ==> Ascending(drawn, order)
    {
      drawn := [];
      var keys := buckets.Keys;
      while keys != {}
        invariant keys <= buckets.Keys
        invariant drawn + DrawOrder(buckets, enabled, keys) == DrawOrder(buckets, enabled, buckets.Keys)
        decreases keys
      {
        LeastExists(keys);
        var k :| IsLeast(k, keys);
        assert k == Least(keys);
        var d := DrawBucket(buckets[k]);
        drawn := drawn + d;
        keys := keys - {k};
      }
      if Valid() {
        RenderOnce(buckets, order, enabled);
      }
    }
  }

  // ---------------------------------------------------------------------------
  // The update registry

  /** UpdateAll as written after removals: removing the first of two
      updateables leaves the second updated twice per pass. */
  lemma UpdateAllAsWrittenTwice(u: Id, b: Id)
    requires u != b
    ensures Active(RemoveAsWritten([u, b], u), map[b := true]) == [b, b]
  {
    RemoveAsWrittenDuplicates(u, b);
    assert [b, b][..1] == [b] && [b][..0] == [];
    assert Active([b], map[b := true]) == [b];
  }

  /** ...and removing the last leaves the destroyed one in the pass. */
  lemma UpdateAllAsWrittenDangling(a: Id, u: Id)
    requires a != u
    ensures Active(RemoveAsWritten([a, u], u), map[a := true, u := true]) == [a, u]
  {
    RemoveAsWrittenKeepsLast(a, u);
    assert [a, u][..1] == [a] && [a][..0] == [];
    assert Active([a], map[a := true, u := true]) == [a];
  }

  /** Under the invariant a pass updates each enabled updateable exactly once,
      and no disabled one. */
  lemma UpdateOnce(updateables: seq<Id>, enabled: map<Id, bool>)
    requires NoDuplicates(updateables) && forall u :: u in updateables <==> u in enabled
    ensures forall u :: multiset(Active(updateables, enabled))[u] == if u in enabled && enabled[u] then 1 else 0
  {
    NoDuplicatesCount(updateables);
    ActiveContents(updateables, enabled);
  }

  class UpdateRegistry {
    /** The registered updateables, in registration order. */
    var updateables: seq<Id>
    var enabled: map<Id, bool>

    ghost predicate Valid()
      reads this
    {
      NoDuplicates(updateables) && forall u :: u in updateables <==> u in enabled
    }

    constructor()
      ensures Valid() && updateables == [] && enabled == map[]
    {
      updateables, enabled := [], map[];
    }

    function GetEnable(u: Id): bool
      reads this
      requires u in enabled
    {
      enabled[u]
    }

    /** The IUpdateable constructor: append u, enabled. It is updated last. */
    method Register(u: Id)
      requires Valid() && u !in enabled
      modifies this
      ensures Valid()
      ensures updateables == old(updateables) + [u] && enabled == old(enabled)[u := true]
      ensures Active(updateables, enabled) == Active(old(updateables), old(enabled)) + [u]
    {
      NoDuplicatesSnoc(updateables, u);
      ActiveAppend(updateables, [u], enabled[u := true]);
      ActiveIgnoresOthers(updateables, enabled, u, true);
      updateables := updateables + [u];
      enabled := enabled[u := true];
    }

    /** The IUpdateable destructor, erasing what it removes. */
    method Unregister(u: Id)
      requires Valid() && u in enabled
      modifies this
      ensures Valid()
      ensures updateables == Erase(old(updateables), u) && enabled == old(enabled) - {u}
    {
      var e := Erase(updateables, u);
      EraseContents(updateables, u);
      updateables := e;
      enabled := enabled - {u};
    }

    method SetEnable(u: Id, e: bool)
      requires Valid() && u in enabled
      modifies this
      ensures Valid()
      ensures enabled == old(enabled)[u := e] && updateables == old(updateables)
    {
      if enabled[u] == e {
        assert enabled == enabled[u := e];
        return;
      }
      enabled := enabled[u := e];
    }

    /** One pass: the updateables whose Update is called, in call order. */
    method UpdateAll() returns (updated: seq<Id>)
      ensures updated == Active(updateables, enabled)
      ensures Valid() ==> forall u :: multiset(updated)[u] == if u in enabled && enabled[u] then 1 else 0
    {
      updated := [];
      var i := 0;
      while i < |updateables|
        invariant i <= |updateables|
        invariant updated == Active(updateables[..i], enabled)
      {
        var u := updateables[i];
        if u in enabled && enabled[u] {
          updated := updated + [u];
        }
        assert updateables[..i + 1] == updateables[..i] + [u];
        ActiveSnoc(updateables[..i], u, enabled);
        i := i + 1;
      }
      assert updateables[..i] == updateables;
      if Valid() {
        UpdateOnce(updateables, enabled);
      }
    }
  }
}
