/** The container tree protocol shared by IContainer and Groupable<T>: every
    container has a nullable parent pointer and a kind-specific child list, and
    the non-virtual AddChild / GetChild / RemoveChild / ClearChildren /
    DeleteTree / SetParentShape drive the kind's hooks (_AddChild,
    _RemoveChild, _ClearChildren, _GetChild, NumChildren, ChildPosition).

    Containers live in an arena: a map from ids to nodes. A shared_ptr becomes
    an id, nullptr becomes None, and the NOT_FOUND sentinel ~(size_t)0 of
    ChildPosition becomes None. */
module Containers {
  import opened Wrappers
  import opened Geometry

  type Id = nat

  /** The three kinds of container:
      - Leaf: the default hooks (no children, _AddChild refuses);
      - Group: ContainerGroup, an ordered vector of children;
      - Slot: the single handle_container of FloatSlider, IntSlider and Toggle,
        together with the widget's relative cur_position, from which the
        handle's parent rectangle is computed. */
  datatype Kind =
    | Leaf
    | Group(children: seq<Id>)
    | Slot(handle: Option<Id>, cursor: GUIPosition)

  /** A container: its parent pointer, its kind, its relative shape, and the
      last parent rectangle it was given by SetParentShape. */
  datatype Node = Node(parent: Option<Id>, kind: Kind, shape: GUIRect, parentShape: Rect)

  /** The children a kind holds, in index order. */
  function Children(k: Kind): seq<Id>
  {
    match k
    case Leaf => []
    case Group(cs) => cs
    case Slot(h, _) => if h.Some? then [h.value] else []
  }

  /** Two kinds are of the same sort (and a slot keeps its cursor). */
  predicate SameSort(a: Kind, b: Kind)
  {
    a.Leaf? == b.Leaf? && a.Group? == b.Group? && a.Slot? == b.Slot?
    && (a.Slot? ==> a.cursor == b.cursor)
  }

  predicate NoDuplicates(s: seq<Id>)
  {
    forall i, j | 0 <= i < j < |s| :: s[i] != s[j]
  }

  // ---------------------------------------------------------------------------
  // The hooks of each kind

  /** NumChildren: 0 for a leaf, the vector length for a group, and 0 or 1 for a
      slot depending on whether a handle is held. */
  function NumChildren(k: Kind): (n: nat)
    ensures n == |Children(k)|
    ensures k.Leaf? ==> n == 0
    ensures k.Slot? ==> n <= 1 && (n == 1 <==> k.handle.Some?)
  {
    match k
    case Leaf => 0
    case Group(cs) => |cs|
    case Slot(h, _) => if h == None then 0 else 1
  }

  /** std::find over a vector: the first index holding c, or None. */
  function Find(s: seq<Id>, c: Id): (r: Option<nat>)
    ensures r.Some? ==> r.value < |s| && s[r.value] == c && c !in s[..r.value]
    ensures r.None? <==> c !in s
  {
    if |s| == 0 then None
    else if s[0] == c then Some(0)
    else match Find(s[1..], c) {
      case None => None
      case Some(i) => assert s[1..][..i] == s[1..i + 1]; Some(i + 1)
    }
  }

  /** ChildPosition: the first index at which c is held, or None (NOT_FOUND). */
  function ChildPosition(k: Kind, c: Id): (r: Option<nat>)
    ensures r.Some? ==> r.value < NumChildren(k) && Children(k)[r.value] == c
    ensures r.None? <==> c !in Children(k)
    ensures k.Leaf? ==> r.None?
    ensures k.Slot? ==> (r == Some(0) <==> k.handle == Some(c))
  {
    match k
    case Leaf => None
    case Group(cs) => Find(cs, c)
    case Slot(h, _) => if h.Some? && h.value == c then Some(0) else None
  }

  /** _AddChild: a leaf refuses, a group appends and accepts, a slot accepts
      only while it holds no handle. Returns whether it accepted and the new
      kind. */
  function AddHook(k: Kind, c: Id): (r: (bool, Kind))
    ensures r.0 <==> (k.Group? || (k.Slot? && k.handle.None?))
    ensures r.0 ==> Children(r.1) == Children(k) + [c]
    ensures !r.0 ==> r.1 == k
    ensures SameSort(k, r.1)
  {
    match k
    case Leaf => (false, k)
    case Group(cs) => (true, Group(cs + [c]))
    case Slot(h, cur) => if h.Some? then (false, k) else (true, Slot(Some(c), cur))
  }

  /** _RemoveChild(i): a group erases index i, shifting the later children down
      by one; a slot drops its handle (i must be 0). A leaf has no index to
      remove. */
  function RemoveHook(k: Kind, i: nat): (r: Kind)
    requires i < NumChildren(k)
    ensures Children(r) == Children(k)[..i] + Children(k)[i + 1..]
    ensures NumChildren(r) == NumChildren(k) - 1
    ensures SameSort(k, r)
  {
    match k
    case Group(cs) => Group(cs[..i] + cs[i + 1..])
    case Slot(_, cur) => Slot(None, cur)
  }

  /** The kind holding only its first n children. */
  function Prefix(k: Kind, n: nat): (r: Kind)
    requires n <= NumChildren(k)
    ensures Children(r) == Children(k)[..n]
    ensures SameSort(k, r)
  {
    match k
    case Leaf => Leaf
    case Group(cs) => Group(cs[..n])
    case Slot(h, cur) => if n == 0 then Slot(None, cur) else k
  }

  /** _ClearChildren: the kind emptied of its children. */
  function ClearHook(k: Kind): (r: Kind)
    ensures Children(r) == []
    ensures SameSort(k, r)
  {
    match k
    case Leaf => Leaf
    case Group(_) => Group([])
    case Slot(_, cur) => Slot(None, cur)
  }

  /** Removing the last of the first n + 1 children leaves the first n; with
      nothing left the kind is the cleared kind. This is the step DeleteTree
      repeats. */
  lemma RemoveLastOfPrefix(k: Kind, n: nat)
    requires n < NumChildren(k)
    ensures RemoveHook(Prefix(k, n + 1), n) == Prefix(k, n)
    ensures Prefix(k, 0) == ClearHook(k)
    ensures Prefix(k, NumChildren(k)) == k
  {
    match k
    case Group(cs) =>
      assert cs[..n + 1][..n] + cs[..n + 1][n + 1..] == cs[..n];
      assert cs[..|cs|] == cs;
    case Slot(_, _) =>
  }

  /** A group's ChildPosition of a child held once is its index. */
  lemma FindUnique(s: seq<Id>, i: nat)
    requires NoDuplicates(s) && i < |s|
    ensures Find(s, s[i]) == Some(i)
  {
  }

  /** Erasing index i of a duplicate-free vector keeps exactly the other
      elements, still without duplicates. */
  lemma EraseNoDuplicates(s: seq<Id>, i: nat)
    requires NoDuplicates(s) && i < |s|
    ensures NoDuplicates(s[..i] + s[i + 1..])
    ensures forall x :: x in s[..i] + s[i + 1..] <==> x in s && x != s[i]
  {
    var t := s[..i] + s[i + 1..];
    forall a, b | 0 <= a < b < |t|
      ensures t[a] != t[b]
    {
      var a' := if a < i then a else a + 1;
      var b' := if b < i then b else b + 1;
      assert t[a] == s[a'] && t[b] == s[b'];
    }
    forall x
      ensures x in t <==> x in s && x != s[i]
    {
      if x in t {
        var k :| 0 <= k < |t| && t[k] == x;
        var k' := if k < i then k else k + 1;
        assert s[k'] == x;
      }
      if x in s && x != s[i] {
        var k :| 0 <= k < |s| && s[k] == x;
        if k < i { assert t[k] == x; } else { assert t[k - 1] == x; }
      }
    }
  }

  // ---------------------------------------------------------------------------
  // The consistency of parent pointers and child lists

  /** The protocol's central invariant over an arena: a node's parent is p
      exactly when p holds it; no child list holds a node twice; no node is its
      own parent. */
  ghost predicate Linked(m: map<Id, Node>)
  {
    ChildrenPointBack(m) && ParentsHold(m) && Distinct(m)
  }

  /** Every child a node holds is in the arena and names that node as parent. */
  ghost predicate ChildrenPointBack(m: map<Id, Node>)
  {
    forall n, c | n in m && c in Children(m[n].kind) :: c in m && m[c].parent == Some(n)
  }

  /** Every parent pointer names a node of the arena that holds the child, and
      never the node itself. */
  ghost predicate ParentsHold(m: map<Id, Node>)
  {
    forall n | n in m && m[n].parent.Some? ::
      m[n].parent.value in m && m[n].parent.value != n && n in Children(m[m[n].parent.value].kind)
  }

  /** No child list holds a node twice. */
  ghost predicate Distinct(m: map<Id, Node>)
  {
    forall n | n in m :: NoDuplicates(Children(m[n].kind))
  }

  /** Bidirectional consistency: c.parent == p iff p.ChildPosition(c) is found. */
  lemma ParentIffFound(m: map<Id, Node>, p: Id, c: Id)
    requires Linked(m) && p in m && c in m
    ensures m[c].parent == Some(p) <==> ChildPosition(m[p].kind, c).Some?
  {
  }

  /** An acyclicity witness: every child ranks below its parent. The code never
      checks for cycles, so operations that walk a subtree require one. */
  ghost predicate Ranked(m: map<Id, Node>, rank: map<Id, nat>)
  {
    forall n | n in m :: n in rank && forall c | c in Children(m[n].kind) :: c in rank && rank[c] < rank[n]
  }

  /** Detaching c from its parent (RemoveChild(child) on that parent): the parent
      erases c from its list and c's parent pointer is cleared. */
  function Detach(m: map<Id, Node>, c: Id): map<Id, Node>
    requires Linked(m) && c in m
  {
    match m[c].parent
    case None => m
    case Some(q) =>
      var i := ChildPosition(m[q].kind, c).value;
      m[q := m[q].(kind := RemoveHook(m[q].kind, i))][c := m[c].(parent := None)]
  }

  /** What detaching changes: c loses its parent, the former parent loses c
      (keeping its other children and its sort), and nothing else changes. */
  lemma DetachFrame(m: map<Id, Node>, c: Id)
    requires Linked(m) && c in m
    ensures Detach(m, c).Keys == m.Keys
    ensures Detach(m, c)[c] == m[c].(parent := None)
    ensures forall n | n in m && n != c && Some(n) != m[c].parent :: Detach(m, c)[n] == m[n]
    ensures forall n | n in m && Some(n) == m[c].parent ::
              Detach(m, c)[n] == m[n].(kind := Detach(m, c)[n].kind)
              && SameSort(m[n].kind, Detach(m, c)[n].kind)
              && NoDuplicates(Children(Detach(m, c)[n].kind))
              && forall x :: x in Children(Detach(m, c)[n].kind) <==> x in Children(m[n].kind) && x != c
  {
    if m[c].parent.Some? {
      var q := m[c].parent.value;
      EraseNoDuplicates(Children(m[q].kind), ChildPosition(m[q].kind, c).value);
    }
  }

  /** Detaching keeps the arena consistent and leaves c held by no one. */
  lemma DetachCorrect(m: map<Id, Node>, c: Id)
    requires Linked(m) && c in m
    ensures Linked(Detach(m, c))
    ensures Detach(m, c).Keys == m.Keys
    ensures Detach(m, c)[c] == m[c].(parent := None)
    ensures forall n | n in m :: c !in Children(Detach(m, c)[n].kind)
    ensures forall n | n in m && n != c && Some(n) != m[c].parent :: Detach(m, c)[n] == m[n]
  {
    DetachFrame(m, c);
    DetachedLinked(m, Detach(m, c), c);
  }

  /** The facts DetachFrame establishes, about an arbitrary successor map d. */
  ghost predicate DetachedFrom(m: map<Id, Node>, d: map<Id, Node>, c: Id)
    requires c in m
  {
    d.Keys == m.Keys
    && d[c] == m[c].(parent := None)
    && (forall n | n in m && n != c && Some(n) != m[c].parent :: d[n] == m[n])
    && (forall n | n in m && Some(n) == m[c].parent ::
          d[n] == m[n].(kind := d[n].kind)
          && NoDuplicates(Children(d[n].kind))
          && forall x :: x in Children(d[n].kind) <==> x in Children(m[n].kind) && x != c)
  }

  lemma DetachedLinked(m: map<Id, Node>, d: map<Id, Node>, c: Id)
    requires Linked(m) && c in m && DetachedFrom(m, d, c)
    ensures Linked(d)
    ensures forall n | n in m :: c !in Children(d[n].kind)
  {
    DetachedChildren(m, d, c);
    DetachedParents(m, d, c);
    DetachedNotHeld(m, d, c);
  }

  lemma DetachedNotHeld(m: map<Id, Node>, d: map<Id, Node>, c: Id)
    requires Linked(m) && c in m && DetachedFrom(m, d, c)
    ensures forall n | n in m :: c !in Children(d[n].kind)
  {
  }

  lemma DetachedChildren(m: map<Id, Node>, d: map<Id, Node>, c: Id)
    requires Linked(m) && c in m && DetachedFrom(m, d, c)
    ensures ChildrenPointBack(d) && Distinct(d)
  {
    DetachedPointBack(m, d, c);
    forall n | n in d
      ensures NoDuplicates(Children(d[n].kind))
    {
      assert n == c || Some(n) == m[c].parent || d[n] == m[n];
    }
  }

  lemma DetachedPointBack(m: map<Id, Node>, d: map<Id, Node>, c: Id)
    requires Linked(m) && c in m && DetachedFrom(m, d, c)
    ensures ChildrenPointBack(d)
  {
    forall n, x | n in d && x in Children(d[n].kind)
      ensures x in d && d[x].parent == Some(n)
    {
      DetachedPointsBack(m, d, c, n, x);
    }
  }

  lemma DetachedPointsBack(m: map<Id, Node>, d: map<Id, Node>, c: Id, n: Id, x: Id)
    requires Linked(m) && c in m && DetachedFrom(m, d, c)
    requires n in d && x in Children(d[n].kind)
    ensures x in d && d[x].parent == Some(n)
  {
    if Some(n) == m[c].parent {
      assert x in Children(m[n].kind) && x != c;
    } else if n == c {
      assert x in Children(m[n].kind);
    } else {
      assert d[n] == m[n];
    }
    assert m[x].parent == Some(n);
    assert x != c;
    assert d[x].parent == m[x].parent;
  }

  lemma DetachedParents(m: map<Id, Node>, d: map<Id, Node>, c: Id)
    requires Linked(m) && c in m && DetachedFrom(m, d, c)
    ensures ParentsHold(d)
  {
    forall n | n in d && d[n].parent.Some?
      ensures d[n].parent.value in d && d[n].parent.value != n && n in Children(d[d[n].parent.value].kind)
    {
      assert n != c;
    }
  }

  /** Replacing a node's kind by one holding the same children keeps the links
      and every acyclicity witness. */
  lemma SameChildrenLinked(m: map<Id, Node>, n: Id, k: Kind)
    requires n in m && Children(k) == Children(m[n].kind)
    ensures Linked(m) ==> Linked(m[n := m[n].(kind := k)])
    ensures forall rank | Ranked(m, rank) :: Ranked(m[n := m[n].(kind := k)], rank)
  {
  }

  /** Detaching only shrinks child lists, so a rank stays a witness. */
  lemma DetachRanked(m: map<Id, Node>, c: Id, rank: map<Id, nat>)
    requires Linked(m) && c in m && Ranked(m, rank)
    ensures Ranked(Detach(m, c), rank)
  {
    DetachFrame(m, c);
  }

  // ---------------------------------------------------------------------------
  // AddChild

  /** The kinds whose _AddChild accepts a new child. */
  predicate Accepts(k: Kind)
  {
    k.Group? || (k.Slot? && k.handle.None?)
  }

  /** The second half of AddChild, once c is held by no one: the hook decides;
      on success c's parent becomes p, on failure it is cleared. */
  function Attach(m: map<Id, Node>, p: Id, c: Id): (bool, map<Id, Node>)
    requires p in m && c in m
  {
    var (added, k) := AddHook(m[p].kind, c);
    if added then (true, m[p := m[p].(kind := k)][c := m[c].(parent := Some(p))])
    else (false, m[c := m[c].(parent := None)])
  }

  /** The outcome of AddChild(c) on container p: the result and the new arena.
      nullptr is refused; a current child is accepted with no change; any other
      child is first removed from its former parent and then offered to p's
      _AddChild. */
  function AddChildOutcome(m: map<Id, Node>, p: Id, c: Option<Id>): (bool, map<Id, Node>)
    requires Linked(m) && p in m && (c.Some? ==> c.value in m && c.value != p)
  {
    if c.None? then (false, m)
    else if m[c.value].parent == Some(p) then (true, m)
    else Attach(Detach(m, c.value), p, c.value)
  }

  /** Attaching a child held by no one keeps the arena consistent. */
  lemma AttachLinked(m: map<Id, Node>, p: Id, c: Id)
    requires Linked(m) && p in m && c in m && p != c
    requires m[c].parent == None && forall n | n in m :: c !in Children(m[n].kind)
    ensures Linked(Attach(m, p, c).1)
    ensures Attach(m, p, c).1.Keys == m.Keys
  {
    AttachPointBack(m, p, c);
    AttachParents(m, p, c);
    AttachDistinct(m, p, c);
  }

  lemma AttachPointBack(m: map<Id, Node>, p: Id, c: Id)
    requires Linked(m) && p in m && c in m && p != c
    requires m[c].parent == None && forall n | n in m :: c !in Children(m[n].kind)
    ensures ChildrenPointBack(Attach(m, p, c).1)
  {
    var (added, k) := AddHook(m[p].kind, c);
    var d := Attach(m, p, c).1;
    if added {
      assert d == m[p := m[p].(kind := k)][c := m[c].(parent := Some(p))];
      forall n, x | n in d && x in Children(d[n].kind)
        ensures x in d && d[x].parent == Some(n)
      {
        if n == p && x == c {
        } else {
          assert x in Children(m[n].kind);
          assert x != c;
        }
      }
    }
  }

  lemma AttachParents(m: map<Id, Node>, p: Id, c: Id)
    requires Linked(m) && p in m && c in m && p != c
    requires m[c].parent == None && forall n | n in m :: c !in Children(m[n].kind)
    ensures ParentsHold(Attach(m, p, c).1)
  {
    var (added, k) := AddHook(m[p].kind, c);
    var d := Attach(m, p, c).1;
    if added {
      assert d == m[p := m[p].(kind := k)][c := m[c].(parent := Some(p))];
      forall n | n in d && d[n].parent.Some?
        ensures d[n].parent.value in d && d[n].parent.value != n && n in Children(d[d[n].parent.value].kind)
      {
        if n != c {
          assert d[n].parent == m[n].parent;
          assert n in Children(m[m[n].parent.value].kind);
        }
      }
    }
  }

  lemma AttachDistinct(m: map<Id, Node>, p: Id, c: Id)
    requires Linked(m) && p in m && c in m && p != c
    requires m[c].parent == None && forall n | n in m :: c !in Children(m[n].kind)
    ensures Distinct(Attach(m, p, c).1)
  {
    var (added, k) := AddHook(m[p].kind, c);
    var d := Attach(m, p, c).1;
    if added {
      assert d == m[p := m[p].(kind := k)][c := m[c].(parent := Some(p))];
      var s := Children(m[p].kind);
      assert Children(d[p].kind) == s + [c];
      assert NoDuplicates(s + [c]) by {
        assert c !in s;
        assert forall i | 0 <= i < |s| :: (s + [c])[i] == s[i];
      }
    }
  }

  /** What AddChild guarantees: the arena stays consistent; nullptr is refused;
      a current child is kept unchanged; otherwise the call succeeds exactly when
      p's kind accepts a child, c ends up parented by p and found in p on
      success, and parentless and found nowhere on failure; either way no other
      container holds c any more. */
  lemma AddChildCorrect(m: map<Id, Node>, p: Id, c: Option<Id>)
    requires Linked(m) && p in m && (c.Some? ==> c.value in m && c.value != p)
    ensures Linked(AddChildOutcome(m, p, c).1)
    ensures AddChildOutcome(m, p, c).1.Keys == m.Keys
    ensures c.None? ==> AddChildOutcome(m, p, c) == (false, m)
    ensures c.Some? && m[c.value].parent == Some(p) ==> AddChildOutcome(m, p, c) == (true, m)
    ensures c.Some? ==>
      var (ok, d) := AddChildOutcome(m, p, c);
      (ok <==> m[c.value].parent == Some(p) || Accepts(m[p].kind))
      && (ok ==> d[c.value].parent == Some(p) && ChildPosition(d[p].kind, c.value).Some?)
      && (!ok ==> d[c.value].parent == None && forall n | n in d :: ChildPosition(d[n].kind, c.value).None?)
      && (forall n | n in d && n != p :: c.value !in Children(d[n].kind))
    ensures c.Some? && m[c.value].parent != Some(p) && AddChildOutcome(m, p, c).0 ==>
      Children(AddChildOutcome(m, p, c).1[p].kind) == Children(m[p].kind) + [c.value]
  {
    if c.Some? && m[c.value].parent != Some(p) {
      var x := c.value;
      DetachCorrect(m, x);
      var e := Detach(m, x);
      assert e[p] == m[p];
      AttachLinked(e, p, x);
      AttachFacts(e, p, x);
    }
  }

  /** What the hook's decision does to the arena, for a child held by no one. */
  lemma AttachFacts(m: map<Id, Node>, p: Id, c: Id)
    requires p in m && c in m && p != c
    requires forall n | n in m :: c !in Children(m[n].kind)
    ensures Attach(m, p, c).0 <==> Accepts(m[p].kind)
    ensures Attach(m, p, c).0 ==>
      Attach(m, p, c).1[c].parent == Some(p) && Children(Attach(m, p, c).1[p].kind) == Children(m[p].kind) + [c]
    ensures !Attach(m, p, c).0 ==>
      Attach(m, p, c).1[c].parent == None && forall n | n in m :: c !in Children(Attach(m, p, c).1[n].kind)
    ensures forall n | n in m && n != p :: c !in Children(Attach(m, p, c).1[n].kind)
  {
  }

  // ---------------------------------------------------------------------------
  // ClearChildren

  /** The arena after ClearChildren on p: every child p held is parentless and
      p holds none. */
  function Cleared(m: map<Id, Node>, p: Id): map<Id, Node>
    requires p in m
  {
    map n | n in m ::
      if n == p then m[n].(kind := ClearHook(m[n].kind))
      else if n in Children(m[p].kind) then m[n].(parent := None)
      else m[n]
  }

  /** ClearChildren keeps the arena consistent, leaves p with no children and
      its former children parentless, is idempotent, and changes nothing when p
      already has no children. */
  lemma ClearedCorrect(m: map<Id, Node>, p: Id)
    requires Linked(m) && p in m
    ensures Linked(Cleared(m, p))
    ensures Cleared(m, p).Keys == m.Keys
    ensures NumChildren(Cleared(m, p)[p].kind) == 0
    ensures forall c | c in Children(m[p].kind) :: Cleared(m, p)[c].parent == None
    ensures Cleared(Cleared(m, p), p) == Cleared(m, p)
    ensures NumChildren(m[p].kind) == 0 ==> Cleared(m, p) == m
  {
    var d := Cleared(m, p);
    ClearedChildren(m, p);
    ClearedParents(m, p);
    assert Linked(d);
    ClearedTwice(m, p);
    forall c | c in Children(m[p].kind)
      ensures d[c].parent == None
    {
      assert m[c].parent == Some(p);
    }
    if NumChildren(m[p].kind) == 0 {
      ClearedEmpty(m, p);
    }
  }

  /** Clearing a childless container changes nothing. */
  lemma ClearedEmpty(m: map<Id, Node>, p: Id)
    requires p in m && Children(m[p].kind) == []
    ensures Cleared(m, p) == m
  {
    assert ClearHook(m[p].kind) == m[p].kind;
    assert forall n | n in m :: Cleared(m, p)[n] == m[n];
  }

  lemma ClearedChildren(m: map<Id, Node>, p: Id)
    requires Linked(m) && p in m
    ensures ChildrenPointBack(Cleared(m, p)) && Distinct(Cleared(m, p))
  {
    var d := Cleared(m, p);
    assert Children(d[p].kind) == [];
    forall n, x | n in d && x in Children(d[n].kind)
      ensures x in d && d[x].parent == Some(n)
    {
      assert n != p && d[n].kind == m[n].kind;
      assert x in m && m[x].parent == Some(n);
      assert x !in Children(m[p].kind);
      assert d[x].parent == m[x].parent;
    }
    forall n | n in d
      ensures NoDuplicates(Children(d[n].kind))
    {
      assert n != p ==> d[n].kind == m[n].kind;
    }
  }

  lemma ClearedParents(m: map<Id, Node>, p: Id)
    requires Linked(m) && p in m
    ensures ParentsHold(Cleared(m, p))
  {
    var d := Cleared(m, p);
    forall n | n in d && d[n].parent.Some?
      ensures d[n].parent.value in d && d[n].parent.value != n && n in Children(d[d[n].parent.value].kind)
    {
      assert n !in Children(m[p].kind);
      assert m[n].parent != Some(p);
    }
  }

  lemma ClearedTwice(m: map<Id, Node>, p: Id)
    requires p in m
    ensures Cleared(Cleared(m, p), p) == Cleared(m, p)
  {
    var d := Cleared(m, p);
    assert Children(d[p].kind) == [];
    assert ClearHook(d[p].kind) == d[p].kind;
  }

  /** Clearing only shrinks child lists, so a rank stays a witness. */
  lemma ClearedRanked(m: map<Id, Node>, p: Id, rank: map<Id, nat>)
    requires p in m && Ranked(m, rank)
    ensures Ranked(Cleared(m, p), rank)
  {
  }

  // ---------------------------------------------------------------------------
  // The arena of live containers

  /** All live containers, keyed by id; the non-virtual IContainer members act on
      it. */
  class Arena {
    var nodes: map<Id, Node>

    ghost predicate Valid()
      reads this
    {
      Linked(nodes)
    }

    constructor ()
      ensures Valid() && nodes == map[]
    {
      nodes := map[];
    }

    /** The IContainer constructor: a new container with no parent and no
        children. */
    method Create(n: Id, kind: Kind, shape: GUIRect)
      requires Valid() && n !in nodes && Children(kind) == []
      modifies this
      ensures Valid()
      ensures nodes == old(nodes)[n := Node(None, kind, shape, Rect(Origin, Origin))]
    {
      nodes := nodes[n := Node(None, kind, shape, Rect(Origin, Origin))];
    }

    /** A slotted widget's cur_position moved (Toggle::Update, the sliders'
        SetFromNorm and OnRelease): its slot records the new cursor, so that the
        rectangle the arena hands the handle follows the widget. Nothing else
        changes and the links are kept. */
    method SetCursor(n: Id, cursor: GUIPosition)
      requires Valid() && n in nodes && nodes[n].kind.Slot?
      modifies this
      ensures Valid()
      ensures nodes == old(nodes)[n := old(nodes)[n].(kind := Slot(old(nodes)[n].kind.handle, cursor))]
      ensures Frame(nodes[n]).size == Frame(old(nodes)[n]).size
      ensures Frame(nodes[n]).pos == PositionGet(cursor, RectGet(nodes[n].shape, nodes[n].parentShape))
    {
      SameChildrenLinked(nodes, n, Slot(nodes[n].kind.handle, cursor));
      nodes := nodes[n := nodes[n].(kind := Slot(nodes[n].kind.handle, cursor))];
    }

    /** Destroying a container: a group or slot widget first clears its children
        (its destructor calls ClearChildren); the IContainer destructor then
        asserts that it has no parent and no children. */
    method Destroy(n: Id)
      requires Valid() && n in nodes && nodes[n].parent == None
      modifies this
      ensures Valid()
      ensures nodes == Cleared(old(nodes), n) - {n}
    {
      ClearChildren(n);
      assert NumChildren(nodes[n].kind) == 0;
      nodes := nodes - {n};
    }

    /** GetChild(i): asserts i < NumChildren() and returns a child that is not
        this container, sits at index i, and has this container as parent. */
    method GetChild(p: Id, i: nat) returns (c: Id)
      requires Valid() && p in nodes && i < NumChildren(nodes[p].kind)
      ensures c == Children(nodes[p].kind)[i]
      ensures c in nodes && c != p
      ensures ChildPosition(nodes[p].kind, c) == Some(i)
      ensures nodes[c].parent == Some(p)
    {
      match nodes[p].kind
      case Group(cs) =>
        c := cs[i];
        FindUnique(cs, i);
      case Slot(h, _) =>
        c := h.value;
      assert c in Children(nodes[p].kind);
      assert c in nodes && nodes[c].parent == Some(p);
    }

    /** AddChild(child); see AddChildCorrect for what the outcome guarantees. */
    method AddChild(p: Id, c: Option<Id>) returns (ok: bool)
      requires Valid() && p in nodes && (c.Some? ==> c.value in nodes && c.value != p)
      modifies this
      ensures Valid()
      ensures (ok, nodes) == AddChildOutcome(old(nodes), p, c)
    {
      AddChildCorrect(nodes, p, c);
      if c.None? {
        return false;
      }
      var child := c.value;
      if nodes[child].parent == Some(p) {
        assert ChildPosition(nodes[p].kind, child).Some?;
        return true;
      }
      if nodes[child].parent.Some? {
        RemoveChild(nodes[child].parent.value, child);
      }
      assert ChildPosition(nodes[p].kind, child).None?;
      var (added, k) := AddHook(nodes[p].kind, child);
      if added {
        nodes := nodes[p := nodes[p].(kind := k)];
        nodes := nodes[child := nodes[child].(parent := Some(p))];
        ok := true;
      } else {
        nodes := nodes[child := nodes[child].(parent := None)];
        ok := false;
      }
    }

    /** RemoveChild(child): asserts the child is this container's, erases it
        through _RemoveChild and clears its parent. */
    method RemoveChild(p: Id, c: Id)
      requires Valid() && p in nodes && c in nodes && nodes[c].parent == Some(p)
      modifies this
      ensures Valid()
      ensures nodes == Detach(old(nodes), c)
    {
      DetachCorrect(nodes, c);
      var i := ChildPosition(nodes[p].kind, c).value;
      nodes := nodes[p := nodes[p].(kind := RemoveHook(nodes[p].kind, i))];
      nodes := nodes[c := nodes[c].(parent := None)];
    }

    /** RemoveChild(index): fetches the child with GetChild, erases the index
        through _RemoveChild and clears the child's parent. */
    method RemoveChildAt(p: Id, i: nat)
      requires Valid() && p in nodes && i < NumChildren(nodes[p].kind)
      modifies this
      ensures Valid()
      ensures nodes == Detach(old(nodes), Children(old(nodes)[p].kind)[i])
    {
      var c := GetChild(p, i);
      DetachCorrect(nodes, c);
      nodes := nodes[p := nodes[p].(kind := RemoveHook(nodes[p].kind, i))];
      nodes := nodes[c := nodes[c].(parent := None)];
    }

    /** ClearChildren: the kind's _ClearChildren. A group walks its vector
        clearing each child's parent and then empties it; a slot clears its
        handle's parent, if any, and drops it; a leaf does nothing. */
    method ClearChildren(p: Id)
      requires Valid() && p in nodes
      modifies this
      ensures Valid()
      ensures nodes == Cleared(old(nodes), p)
    {
      ghost var m := nodes;
      match nodes[p].kind
      case Leaf =>
        ClearedIs(m, p, nodes);
      case Slot(h, cur) =>
        if h.Some? {
          assert h.value in Children(m[p].kind);
          nodes := nodes[h.value := nodes[h.value].(parent := None)];
          nodes := nodes[p := nodes[p].(kind := Slot(None, cur))];
        }
        ClearedIs(m, p, nodes);
      case Group(cs) =>
        ClearParents(cs);
        nodes := nodes[p := nodes[p].(kind := Group([]))];
        ClearedIs(m, p, nodes);
    }

    /** DeleteTree(root): takes the children of root apart from the last one
        down to the first, removing each with RemoveChild(index) and recursing
        into it. Afterwards root holds no children and every former descendant
        S has no parent and no children, which is what the IContainer
        destructor asserts. Nothing else changes. */
    method DeleteTree(root: Option<Id>, ghost rank: map<Id, nat>) returns (ghost S: set<Id>)
      requires Valid() && Ranked(nodes, rank)
      requires root.Some? ==> root.value in nodes
      modifies this
      decreases if root.Some? && root.value in rank then rank[root.value] else 0
      ensures Valid() && Ranked(nodes, rank)
      ensures nodes.Keys == old(nodes).Keys
      ensures root.None? ==> nodes == old(nodes) && S == {}
      ensures root.Some? ==> DeletedTree(old(nodes), nodes, root.value, S, rank)
    {
      if root.None? {
        return {};
      }
      var r := root.value;
      ghost var E := nodes;
      var num := NumChildren(nodes[r].kind);
      S := {};
      while num > 0
        invariant Valid() && Ranked(nodes, rank) && nodes.Keys == E.Keys
        invariant Deleting(E, nodes, r, S, rank, num)
        decreases num
      {
        num := num - 1;
        var child := GetChild(r, num);
        assert rank[child] < rank[r];
        ghost var N0 := nodes;
        DetachAt(nodes, r, num);
        DetachRanked(nodes, child, rank);
        RemoveChildAt(r, num);
        ghost var M := nodes;
        ghost var S' := DeleteTree(Some(child), rank);
        DeleteStep(E, N0, M, nodes, r, child, S, S', rank, num);
        S := S + {child} + S';
      }
      DeletingDone(E, nodes, r, S, rank);
    }

    /** SetParentShape(n, P): n records P as the rectangle of its parent and
        lays its children out against its own absolute rectangle: a group hands
        every child that rectangle, in order; a slotted widget hands its handle
        the rectangle of its own size placed at its cursor. Afterwards every
        descendant S of n holds the rectangle its new parent hands it, and
        nothing else has changed. */
    method SetParentShape(n: Id, P: Rect, ghost rank: map<Id, nat>) returns (ghost S: set<Id>)
      requires Valid() && Ranked(nodes, rank) && n in nodes
      modifies this
      decreases rank[n]
      ensures Valid() && Ranked(nodes, rank)
      ensures LaidOut(old(nodes), nodes, n, P, S, rank)
    {
      ghost var E := nodes;
      nodes := nodes[n := nodes[n].(parentShape := P)];
      LayingStart(E, nodes, n, P, rank);
      OnlyParentShapesLinked(E, nodes, rank);
      var out := Frame(nodes[n]);
      S := {};
      match nodes[n].kind
      case Leaf =>
        LayingDone(E, nodes, n, P, S, rank);
      case Slot(handle, _) =>
        if handle.Some? {
          var h := handle.value;
          assert rank[h] < rank[n];
          S := LayOutChild(E, n, P, S, 0, out, rank);
          LayingDone(E, nodes, n, P, S, rank);
        } else {
          LayingDone(E, nodes, n, P, S, rank);
        }
      case Group(cs) =>
        var i := 0;
        while i < |cs|
          invariant Valid() && Ranked(nodes, rank)
          invariant i <= |cs| && Children(E[n].kind) == cs
          invariant Laying(E, nodes, n, P, S, rank, i)
          invariant Frame(nodes[n]) == out
        {
          S := LayOutChild(E, n, P, S, i, out, rank);
          i := i + 1;
        }
        LayingDone(E, nodes, n, P, S, rank);
    }

    method LayOutChild(ghost E: map<Id, Node>, n: Id, ghost P: Rect, ghost S: set<Id>, i: nat, out: Rect, ghost rank: map<Id, nat>)
      returns (ghost T: set<Id>)
      requires Valid() && Ranked(nodes, rank) && Linked(E) && Ranked(E, rank)
      requires Laying(E, nodes, n, P, S, rank, i) && i < NumChildren(E[n].kind)
      requires Frame(nodes[n]) == out
      modifies this
      decreases rank[n], 0
      ensures Valid() && Ranked(nodes, rank)
      ensures Laying(E, nodes, n, P, T, rank, i + 1) && Frame(nodes[n]) == out
    {
      var c := Children(nodes[n].kind)[i];
      ChildInArena(nodes, rank, n, i);
      ghost var N0 := nodes;
      ghost var S' := SetParentShape(c, out, rank);
      LayStep(E, N0, nodes, n, P, S, S', rank, i);
      T := S + {c} + S';
    }

    /** The loop of ContainerGroup::_ClearChildren: each listed child's parent
        pointer is cleared in turn. */
    method ClearParents(cs: seq<Id>)
      requires forall c | c in cs :: c in nodes
      modifies this
      ensures nodes.Keys == old(nodes).Keys
      ensures forall n | n in nodes :: nodes[n] == if n in cs then old(nodes)[n].(parent := None) else old(nodes)[n]
    {
      var j := 0;
      while j < |cs|
        invariant 0 <= j <= |cs|
        invariant nodes.Keys == old(nodes).Keys
        invariant forall n | n in nodes :: nodes[n] == if n in cs[..j] then old(nodes)[n].(parent := None) else old(nodes)[n]
      {
        assert cs[..j + 1] == cs[..j] + [cs[j]];
        nodes := nodes[cs[j] := nodes[cs[j]].(parent := None)];
        j := j + 1;
      }
      assert cs[..j] == cs;
    }
  }

  /** An arena that agrees with Cleared(m, p) node by node is that arena. */
  lemma ClearedIs(m: map<Id, Node>, p: Id, d: map<Id, Node>)
    requires p in m && d.Keys == m.Keys
    requires d[p] == m[p].(kind := ClearHook(m[p].kind))
    requires forall n | n in d && n != p :: d[n] == if n in Children(m[p].kind) then m[n].(parent := None) else m[n]
    ensures d == Cleared(m, p)
    ensures Linked(m) ==> Linked(d)
  {
    assert d == Cleared(m, p);
    if Linked(m) {
      ClearedCorrect(m, p);
    }
  }

  // ---------------------------------------------------------------------------
  // DeleteTree

  /** The state of DeleteTree(r) from arena E while the children of r from
      index num on have been taken apart: r keeps its first num children; the
      set S of visited nodes is closed under E's child lists, contains the
      children of r from num on, reaches r through E's parent pointers, ranks
      below r, and has every member parentless and childless; no other node
      has changed. */
  ghost predicate Deleting(E: map<Id, Node>, N: map<Id, Node>, r: Id, S: set<Id>, rank: map<Id, nat>, num: nat)
  {
    r in E && r in N && r !in S && N.Keys == E.Keys
    && num <= NumChildren(E[r].kind)
    && N[r] == E[r].(kind := Prefix(E[r].kind, num))
    && (forall n | n in S :: n in E && N[n] == E[n].(parent := None, kind := ClearHook(E[n].kind)))
    && (forall n | n in N && n != r && n !in S :: N[n] == E[n])
    && (forall i | num <= i < NumChildren(E[r].kind) :: Children(E[r].kind)[i] in S)
    && SubtreeClosed(E, r, S, rank)
  }

  /** S is closed under E's child lists and every member hangs below r. */
  ghost predicate SubtreeClosed(E: map<Id, Node>, r: Id, S: set<Id>, rank: map<Id, nat>)
  {
    (forall n, c | n in S && n in E && c in Children(E[n].kind) :: c in S)
    && (forall n | n in S :: n in E && E[n].parent.Some? && (E[n].parent.value == r || E[n].parent.value in S))
    && (forall n | n in S :: n in rank && r in rank && rank[n] < rank[r])
  }

  /** The end state of DeleteTree(r) from arena E: r holds no children and keeps
      everything else; S, closed under E's child lists and containing r's
      children, is exactly r's former descendants, each left parentless and
      childless; every other node is unchanged. */
  ghost predicate DeletedTree(E: map<Id, Node>, N: map<Id, Node>, r: Id, S: set<Id>, rank: map<Id, nat>)
  {
    r in E && r in N && r !in S && N.Keys == E.Keys
    && N[r] == E[r].(kind := ClearHook(E[r].kind))
    && (forall n | n in S :: n in E && N[n] == E[n].(parent := None, kind := ClearHook(E[n].kind)))
    && (forall n | n in N && n != r && n !in S :: N[n] == E[n])
    && (forall c | c in Children(E[r].kind) :: c in S)
    && SubtreeClosed(E, r, S, rank)
  }

  /** Removing the child at index i of p goes through _RemoveChild(i). */
  lemma DetachAt(m: map<Id, Node>, p: Id, i: nat)
    requires Linked(m) && p in m && i < NumChildren(m[p].kind)
    ensures Children(m[p].kind)[i] in m
    ensures m[Children(m[p].kind)[i]].parent == Some(p)
    ensures Detach(m, Children(m[p].kind)[i])[p] == m[p].(kind := RemoveHook(m[p].kind, i))
  {
    var c := Children(m[p].kind)[i];
    assert c in m && m[c].parent == Some(p);
    assert c != p;
    if m[p].kind.Group? {
      FindUnique(m[p].kind.children, i);
    }
    assert ChildPosition(m[p].kind, c) == Some(i);
  }

  lemma DeletingDone(E: map<Id, Node>, N: map<Id, Node>, r: Id, S: set<Id>, rank: map<Id, nat>)
    requires Deleting(E, N, r, S, rank, 0)
    ensures DeletedTree(E, N, r, S, rank)
  {
    if NumChildren(E[r].kind) > 0 {
      RemoveLastOfPrefix(E[r].kind, 0);
    } else {
      assert Prefix(E[r].kind, 0) == ClearHook(E[r].kind);
    }
    forall c | c in Children(E[r].kind)
      ensures c in S
    {
      var i :| 0 <= i < |Children(E[r].kind)| && Children(E[r].kind)[i] == c;
    }
  }

  /** One turn of DeleteTree's loop: child, at index num of r, is removed from r
      (arena N0 to M) and its own tree deleted (M to N1, visiting S'). */
  lemma DeleteStep(E: map<Id, Node>, N0: map<Id, Node>, M: map<Id, Node>, N1: map<Id, Node>,
                   r: Id, child: Id, S: set<Id>, S': set<Id>, rank: map<Id, nat>, num: nat)
    requires Linked(N0) && Ranked(N0, rank)
    requires Deleting(E, N0, r, S, rank, num + 1)
    requires r in N0 && num < NumChildren(N0[r].kind) && child == Children(N0[r].kind)[num]
    requires child in N0 && M == Detach(N0, child)
    requires DeletedTree(M, N1, child, S', rank)
    ensures Deleting(E, N1, r, S + {child} + S', rank, num)
  {
    DetachAt(N0, r, num);
    DetachCorrect(N0, child);
    RemoveLastOfPrefix(E[r].kind, num);
    assert Children(N0[r].kind) == Children(E[r].kind)[..num + 1];
    assert M[r] == E[r].(kind := Prefix(E[r].kind, num));
    assert rank[child] < rank[r];
    DeleteStepAfter(E, N0, M, N1, r, child, S, S', rank, num);
  }

  /** The same turn, with the removal described only by what it does. */
  lemma DeleteStepAfter(E: map<Id, Node>, N0: map<Id, Node>, M: map<Id, Node>, N1: map<Id, Node>,
                        r: Id, child: Id, S: set<Id>, S': set<Id>, rank: map<Id, nat>, num: nat)
    requires Deleting(E, N0, r, S, rank, num + 1)
    requires num < NumChildren(E[r].kind) && child == Children(E[r].kind)[num]
    requires child in N0 && N0[child].parent == Some(r)
    requires r in rank && child in rank && rank[child] < rank[r]
    requires M.Keys == N0.Keys && M[child] == N0[child].(parent := None)
    requires M[r] == E[r].(kind := Prefix(E[r].kind, num))
    requires forall n | n in N0 && n != child && n != r :: M[n] == N0[n]
    requires DeletedTree(M, N1, child, S', rank)
    ensures Deleting(E, N1, r, S + {child} + S', rank, num)
  {
    assert child !in S && child != r;
    assert N0[child] == E[child];
    forall n | n in S
      ensures n in N0 && N0[n].parent == None
    {
    }
    VisitedFresh(E, N0, M, r, child, S, S', rank);
    DeleteStepNodes(E, N0, M, N1, r, child, S, S', num);
    DeleteStepClosed(E, M, r, child, S, S', rank);
    LaterChildrenVisited(Children(E[r].kind), num, S, child, S');
  }

  /** The nodes the deletion of child visits were untouched before it. */
  lemma VisitedFresh(E: map<Id, Node>, N0: map<Id, Node>, M: map<Id, Node>,
                     r: Id, child: Id, S: set<Id>, S': set<Id>, rank: map<Id, nat>)
    requires N0.Keys == E.Keys && M.Keys == N0.Keys
    requires forall n | n in S :: n in N0 && N0[n].parent == None
    requires forall n | n in N0 && n != r && n !in S :: N0[n] == E[n]
    requires forall n | n in N0 && n != child && n != r :: M[n] == N0[n]
    requires SubtreeClosed(M, child, S', rank)
    requires r in rank && child in rank && rank[child] < rank[r]
    ensures forall n | n in S' :: n in M && n in E && n !in S && n != r && n != child && M[n] == E[n]
  {
    forall n | n in S'
      ensures n in M && n in E && n !in S && n != r && n != child && M[n] == E[n]
    {
      assert n in M && M[n].parent.Some? && rank[n] < rank[child];
    }
  }

  /** After the turn at index num, the children from num on are visited. */
  lemma LaterChildrenVisited(cs: seq<Id>, num: nat, S: set<Id>, child: Id, S': set<Id>)
    requires num < |cs| && child == cs[num]
    requires forall i | num + 1 <= i < |cs| :: cs[i] in S
    ensures forall i | num <= i < |cs| :: cs[i] in S + {child} + S'
  {
  }

  lemma DeleteStepNodes(E: map<Id, Node>, N0: map<Id, Node>, M: map<Id, Node>, N1: map<Id, Node>,
                        r: Id, child: Id, S: set<Id>, S': set<Id>, num: nat)
    requires r in E && r in N0 && r !in S && N0.Keys == E.Keys
    requires forall n | n in S :: n in E && N0[n] == E[n].(parent := None, kind := ClearHook(E[n].kind))
    requires forall n | n in N0 && n != r && n !in S :: N0[n] == E[n]
    requires child in N0 && child != r && child !in S && num <= NumChildren(E[r].kind)
    requires M.Keys == N0.Keys && M[child] == N0[child].(parent := None)
    requires M[r] == E[r].(kind := Prefix(E[r].kind, num))
    requires forall n | n in N0 && n != child && n != r :: M[n] == N0[n]
    requires forall n | n in S' :: n in M && n in E && n !in S && n != r && n != child && M[n] == E[n]
    requires child in M && r in M
    requires N1.Keys == M.Keys && r !in S'
    requires N1[child] == M[child].(kind := ClearHook(M[child].kind))
    requires forall n | n in S' :: n in M && N1[n] == M[n].(parent := None, kind := ClearHook(M[n].kind))
    requires forall n | n in N1 && n != child && n !in S' :: N1[n] == M[n]
    ensures N1.Keys == E.Keys
    ensures N1[r] == E[r].(kind := Prefix(E[r].kind, num))
    ensures forall n | n in S + {child} + S' :: n in E && N1[n] == E[n].(parent := None, kind := ClearHook(E[n].kind))
    ensures forall n | n in N1 && n != r && n !in S + {child} + S' :: N1[n] == E[n]
  {
    forall n | n in S + {child} + S'
      ensures n in E && N1[n] == E[n].(parent := None, kind := ClearHook(E[n].kind))
    {
      if n in S {
        assert N1[n] == M[n] == N0[n];
      }
    }
  }

  lemma DeleteStepClosed(E: map<Id, Node>, M: map<Id, Node>, r: Id, child: Id, S: set<Id>, S': set<Id>, rank: map<Id, nat>)
    requires SubtreeClosed(E, r, S, rank)
    requires child in E && child in M && E[child].parent == Some(r)
    requires Children(M[child].kind) == Children(E[child].kind)
    requires r in rank && child in rank && rank[child] < rank[r]
    requires forall n | n in S' :: n in E && n in M && M[n] == E[n]
    requires forall c | c in Children(M[child].kind) :: c in S'
    requires SubtreeClosed(M, child, S', rank)
    ensures SubtreeClosed(E, r, S + {child} + S', rank)
  {
  }

  // ---------------------------------------------------------------------------
  // SetParentShape

  /** The rectangle a node lays its children out against, given the parent
      rectangle it recorded: its own absolute rectangle, or for a slotted widget
      that rectangle moved to the widget's cursor. */
  function Frame(nd: Node): (r: Rect)
    ensures r.size == RectGet(nd.shape, nd.parentShape).size
    ensures nd.kind.Slot? ==> r.pos == PositionGet(nd.kind.cursor, RectGet(nd.shape, nd.parentShape))
    ensures !nd.kind.Slot? ==> r == RectGet(nd.shape, nd.parentShape)
  {
    var own := RectGet(nd.shape, nd.parentShape);
    match nd.kind
    case Slot(_, cursor) => Rect(PositionGet(cursor, own), own.size)
    case _ => own
  }

  /** N differs from E at most in the recorded parent rectangles. */
  ghost predicate OnlyParentShapes(E: map<Id, Node>, N: map<Id, Node>)
  {
    N.Keys == E.Keys && forall m | m in N :: N[m] == E[m].(parentShape := N[m].parentShape)
  }

  /** Recording P at n starts the layout: nothing visited, only n changed. */
  lemma LayingStart(E: map<Id, Node>, N: map<Id, Node>, n: Id, P: Rect, rank: map<Id, nat>)
    requires n in E && N == E[n := E[n].(parentShape := P)]
    ensures OnlyParentShapes(E, N)
    ensures Laying(E, N, n, P, {}, rank, 0)
  {
  }

  lemma OnlyParentShapesLinked(E: map<Id, Node>, N: map<Id, Node>, rank: map<Id, nat>)
    requires OnlyParentShapes(E, N)
    ensures Linked(E) ==> Linked(N)
    ensures Ranked(E, rank) ==> Ranked(N, rank)
    ensures forall n, S | SubtreeClosed(N, n, S, rank) :: SubtreeClosed(E, n, S, rank)
  {
  }

  /** Every node outside S other than n is as in E. */
  ghost predicate OthersKept(E: map<Id, Node>, N: map<Id, Node>, n: Id, S: set<Id>)
  {
    forall m | m in N && m != n && m !in S :: m in E && N[m] == E[m]
  }

  /** Every member of S records the rectangle its parent (in E) hands it. */
  ghost predicate FramesHold(E: map<Id, Node>, N: map<Id, Node>, S: set<Id>)
  {
    forall m | m in S :: m in E && m in N && E[m].parent.Some? && E[m].parent.value in N
                         && N[m].parentShape == Frame(N[E[m].parent.value])
  }

  /** What SetParentShape(n, P) from arena E has done so far, having visited S:
      n records P; every member of S records the rectangle its parent hands it;
      only recorded parent rectangles have changed, and only those of n and S. */
  ghost predicate Reshaped(E: map<Id, Node>, N: map<Id, Node>, n: Id, P: Rect, S: set<Id>, rank: map<Id, nat>)
  {
    n in E && n !in S && OnlyParentShapes(E, N)
    && N[n] == E[n].(parentShape := P)
    && OthersKept(E, N, n, S)
    && SubtreeClosed(E, n, S, rank)
    && FramesHold(E, N, S)
  }

  /** The end state of SetParentShape(n, P): S also holds every child of n. */
  ghost predicate LaidOut(E: map<Id, Node>, N: map<Id, Node>, n: Id, P: Rect, S: set<Id>, rank: map<Id, nat>)
  {
    Reshaped(E, N, n, P, S, rank) && forall c | c in Children(E[n].kind) :: c in S
  }

  /** The first i entries of cs are in S. */
  ghost predicate FirstIn(cs: seq<Id>, S: set<Id>, i: nat)
  {
    i <= |cs| && forall k | 0 <= k < i :: cs[k] in S
  }

  /** Every child of n in S is among the first i entries of cs. */
  ghost predicate OnlyFirst(E: map<Id, Node>, n: Id, cs: seq<Id>, S: set<Id>, i: nat)
  {
    i <= |cs| && forall m | m in S && m in E && E[m].parent == Some(n) :: m in cs[..i]
  }

  /** The state after the first i children of n have been laid out: S holds
      them, and no other child of n. */
  ghost predicate Laying(E: map<Id, Node>, N: map<Id, Node>, n: Id, P: Rect, S: set<Id>, rank: map<Id, nat>, i: nat)
  {
    Reshaped(E, N, n, P, S, rank)
    && FirstIn(Children(E[n].kind), S, i) && OnlyFirst(E, n, Children(E[n].kind), S, i)
  }

  lemma LayingDone(E: map<Id, Node>, N: map<Id, Node>, n: Id, P: Rect, S: set<Id>, rank: map<Id, nat>)
    requires n in E && Laying(E, N, n, P, S, rank, NumChildren(E[n].kind))
    ensures LaidOut(E, N, n, P, S, rank)
  {
    forall c | c in Children(E[n].kind)
      ensures c in S
    {
      var k :| 0 <= k < |Children(E[n].kind)| && Children(E[n].kind)[k] == c;
    }
  }

  lemma ChildInArena(m: map<Id, Node>, rank: map<Id, nat>, p: Id, i: nat)
    requires Linked(m) && Ranked(m, rank) && p in m && i < NumChildren(m[p].kind)
    ensures Children(m[p].kind)[i] in m && m[Children(m[p].kind)[i]].parent == Some(p)
    ensures p in rank && Children(m[p].kind)[i] in rank && rank[Children(m[p].kind)[i]] < rank[p]
  {
  }

  lemma RankBelowParent(E: map<Id, Node>, rank: map<Id, nat>, x: Id)
    requires Linked(E) && Ranked(E, rank) && x in E && E[x].parent.Some?
    ensures x in rank && E[x].parent.value in rank && rank[x] < rank[E[x].parent.value]
  {
  }

  /** Two subtrees hanging off different children of n share no node: the
      parent chain of a shared node would have to reach n and c both. */
  lemma NotInBoth(E: map<Id, Node>, rank: map<Id, nat>, n: Id, S: set<Id>, c: Id, S': set<Id>, x: Id)
    requires Linked(E) && Ranked(E, rank)
    requires SubtreeClosed(E, n, S, rank) && SubtreeClosed(E, c, S', rank)
    requires c !in S && c in rank && n in rank && rank[c] < rank[n]
    requires x in S'
    ensures x !in S
    decreases rank[c] - rank[x]
  {
    var y := E[x].parent.value;
    if y != c {
      RankBelowParent(E, rank, x);
      NotInBoth(E, rank, n, S, c, S', y);
    }
  }

  /** One turn of the layout loop: child i of n, laid out from N0 to N1 while
      visiting S', joins the visited set. */
  lemma LayStep(E: map<Id, Node>, N0: map<Id, Node>, N1: map<Id, Node>, n: Id, P: Rect, S: set<Id>, S': set<Id>, rank: map<Id, nat>, i: nat)
    requires Linked(E) && Ranked(E, rank)
    requires Laying(E, N0, n, P, S, rank, i) && i < NumChildren(E[n].kind)
    requires LaidOut(N0, N1, Children(E[n].kind)[i], Frame(N0[n]), S', rank)
    ensures Laying(E, N1, n, P, S + {Children(E[n].kind)[i]} + S', rank, i + 1)
  {
    var c := Children(E[n].kind)[i];
    LayStepSeparate(E, N0, N1, n, P, S, S', rank, i);
    LayStepNodes(E, N0, N1, n, P, S, c, S');
    ClosedUnion(E, n, c, S, S', rank);
    LayStepIndex(E, n, S, c, S', i);
  }

  /** The facts LayStep rests on: the new child was not visited before, its
      subtree is closed in E and shares nothing with what was visited. */
  lemma LayStepSeparate(E: map<Id, Node>, N0: map<Id, Node>, N1: map<Id, Node>, n: Id, P: Rect, S: set<Id>, S': set<Id>, rank: map<Id, nat>, i: nat)
    requires Linked(E) && Ranked(E, rank)
    requires Laying(E, N0, n, P, S, rank, i) && i < NumChildren(E[n].kind)
    requires LaidOut(N0, N1, Children(E[n].kind)[i], Frame(N0[n]), S', rank)
    ensures Children(E[n].kind)[i] in E && E[Children(E[n].kind)[i]].parent == Some(n)
    ensures Children(E[n].kind)[i] !in S && Children(E[n].kind)[i] != n
    ensures n in rank && Children(E[n].kind)[i] in rank && rank[Children(E[n].kind)[i]] < rank[n]
    ensures SubtreeClosed(E, Children(E[n].kind)[i], S', rank)
    ensures forall d | d in Children(E[Children(E[n].kind)[i]].kind) :: d in S'
    ensures forall x | x in S' :: x !in S && x != n
    ensures OnlyParentShapes(N0, N1) && Children(E[n].kind)[i] !in S'
    ensures N1[Children(E[n].kind)[i]] == N0[Children(E[n].kind)[i]].(parentShape := Frame(N0[n]))
    ensures OthersKept(N0, N1, Children(E[n].kind)[i], S')
    ensures FramesHold(E, N1, S')
  {
    var c := Children(E[n].kind)[i];
    assert c in E && E[c].parent == Some(n);
    OnlyParentShapesLinked(E, N0, rank);
    assert SubtreeClosed(E, c, S', rank);
    assert Children(N0[c].kind) == Children(E[c].kind);
    forall x | x in S'
      ensures x !in S && x != n
    {
      NotInBoth(E, rank, n, S, c, S', x);
    }
    forall m | m in S'
      ensures m in E && m in N1 && E[m].parent.Some? && E[m].parent.value in N1
           && N1[m].parentShape == Frame(N1[E[m].parent.value])
    {
      assert E[m].parent == N0[m].parent;
    }
  }

  /** Adding child c of r and its closed subtree S' keeps a subtree set closed. */
  lemma ClosedUnion(E: map<Id, Node>, r: Id, c: Id, S: set<Id>, S': set<Id>, rank: map<Id, nat>)
    requires SubtreeClosed(E, r, S, rank) && SubtreeClosed(E, c, S', rank)
    requires c in E && E[c].parent == Some(r) && (forall d | d in Children(E[c].kind) :: d in S')
    requires r in rank && c in rank && rank[c] < rank[r]
    ensures SubtreeClosed(E, r, S + {c} + S', rank)
  {
  }

  lemma LayStepIndex(E: map<Id, Node>, n: Id, S: set<Id>, c: Id, S': set<Id>, i: nat)
    requires n in E && i < NumChildren(E[n].kind) && c == Children(E[n].kind)[i]
    requires FirstIn(Children(E[n].kind), S, i) && OnlyFirst(E, n, Children(E[n].kind), S, i)
    requires forall x | x in S' :: x !in S && x != n
    requires forall m | m in S' :: m in E && E[m].parent.Some? && E[m].parent.value != n
    ensures FirstIn(Children(E[n].kind), S + {c} + S', i + 1)
    ensures OnlyFirst(E, n, Children(E[n].kind), S + {c} + S', i + 1)
  {
    var cs := Children(E[n].kind);
    forall m | m in S + {c} + S' && m in E && E[m].parent == Some(n)
      ensures m in cs[..i + 1]
    {
      if m in S {
        assert m in cs[..i];
      }
    }
  }

  lemma LayStepNodes(E: map<Id, Node>, N0: map<Id, Node>, N1: map<Id, Node>, n: Id, P: Rect, S: set<Id>, c: Id, S': set<Id>)
    requires n in E && n !in S && OnlyParentShapes(E, N0)
    requires N0[n] == E[n].(parentShape := P)
    requires OthersKept(E, N0, n, S) && FramesHold(E, N0, S)
    requires forall m | m in S :: E[m].parent.value == n || E[m].parent.value in S
    requires c in E && E[c].parent == Some(n) && c !in S && c != n
    requires forall x | x in S' :: x !in S && x != n
    requires OnlyParentShapes(N0, N1) && c !in S'
    requires N1[c] == N0[c].(parentShape := Frame(N0[n]))
    requires OthersKept(N0, N1, c, S') && FramesHold(E, N1, S')
    ensures OnlyParentShapes(E, N1)
    ensures N1[n] == E[n].(parentShape := P)
    ensures OthersKept(E, N1, n, S + {c} + S')
    ensures FramesHold(E, N1, S + {c} + S')
  {
    assert N1[n] == N0[n];
    LayStepFrames(E, N0, N1, n, S, c, S');
  }

  lemma LayStepFrames(E: map<Id, Node>, N0: map<Id, Node>, N1: map<Id, Node>, n: Id, S: set<Id>, c: Id, S': set<Id>)
    requires N1.Keys == N0.Keys && n in N0 && N1[n] == N0[n]
    requires FramesHold(E, N0, S)
    requires forall m | m in S :: E[m].parent.value == n || E[m].parent.value in S
    requires c in E && c in N1 && E[c].parent == Some(n) && c !in S
    requires forall x | x in S' :: x !in S
    requires c !in S' && N1[c].parentShape == Frame(N0[n])
    requires OthersKept(N0, N1, c, S') && FramesHold(E, N1, S')
    ensures FramesHold(E, N1, S + {c} + S')
  {
    forall m | m in S + {c} + S'
      ensures m in E && m in N1 && E[m].parent.Some? && E[m].parent.value in N1
      ensures N1[m].parentShape == Frame(N1[E[m].parent.value])
    {
      if m in S {
        var q := E[m].parent.value;
        assert q == n || q in S;
        assert m in N1 && q in N1;
        assert N1[m] == N0[m] && N1[q] == N0[q];
      }
    }
  }
}
