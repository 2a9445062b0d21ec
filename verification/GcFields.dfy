/** What a collection keeps, in terms of the fields of objects and of the machine: nothing here is stated through
    the functions by which the collector is specified. */
module GcFields {
  import opened GcGraph
  import opened GcLists
  import opened GcMark
  import opened GcHeap

  /** A field of the contents points to `c`. */
  predicate InField(p: Payload, c: Obj) {
    match p
    case List(head, tail) => head == Ptr(c) || tail == c
    case Array(data, block) => Ptr(c) in data
    case Object(proto, isInline, slots, block) =>
      proto == c || exists i :: 0 <= i < |slots| && slots[i].Occupied? && slots[i].v == Ptr(c)
    case Function(index, bound, raw, caps) => bound == Ptr(c) || (!raw && Ptr(c) in caps)
    case Enum(fields) => Ptr(c) in fields
    case _ => false
  }

  /** The machine points to `c`. */
  ghost predicate InRoots(vm: Heap, c: Obj)
    reads vm
  {
    || Ptr(c) in vm.spill || Ptr(c) in vm.roots || c in vm.constFuns || c in vm.constBytes
    || (exists i :: 0 <= i < |vm.enumCaches| && vm.enumCaches[i].Cache? && c in vm.enumCaches[i].slots)
    || (vm.running && exists i, r :: 0 <= i < |vm.frames| && 0 <= r < |vm.frames[i]|
                                     && vm.frames[i][r] in {Dynamic(Ptr(c)), Typed(c)})
  }

  /** Places on the object list: the machine points to the object at the first, and a field of each to the object
      at the next. */
  ghost predicate Chain(vm: Heap, path: seq<nat>)
    reads vm, vm.objs
  {
    && |path| > 0
    && (forall i :: 0 <= i < |path| ==> path[i] < |vm.objs|)
    && InRoots(vm, vm.objs[path[0]])
    && forall i :: 0 <= i < |path| - 1 ==> InField(vm.objs[path[i]].payload, vm.objs[path[i + 1]])
  }

  ghost predicate Reached(vm: Heap, o: Obj)
    reads vm, vm.objs
  {
    exists path: seq<nat> :: Chain(vm, path) && vm.objs[path[|path| - 1]] == o
  }

  // ---- the specification and the fields ------------------------------------------------------------------

  lemma {:induction false} InRefs<T>(f: T -> set<Obj>, s: seq<T>, c: Obj)
    ensures c in RefsOf(f, s) <==> exists i :: 0 <= i < |s| && c in f(s[i])
    decreases |s|
  {
    if |s| > 0 {
      var n := |s| - 1;
      InRefs(f, s[..n], c);
      if c in RefsOf(f, s[..n]) {
        var i :| 0 <= i < n && c in f(s[..n][i]);
        assert c in f(s[i]);
      }
      if i :| 0 <= i < |s| && c in f(s[i]) {
        if i < n { assert c in f(s[..n][i]); }
      }
    }
  }

  lemma InValues(vs: seq<Val>, c: Obj)
    ensures c in RefsOf(ValRef, vs) <==> Ptr(c) in vs
  {
    InRefs(ValRef, vs, c);
    hide RefsOf;
    if Ptr(c) in vs {
      var i :| 0 <= i < |vs| && vs[i] == Ptr(c);
      assert c in ValRef(vs[i]);
    }
  }

  lemma InPointers(ps: seq<Obj?>, c: Obj)
    ensures c in RefsOf(PtrRef, ps) <==> c in ps
  {
    InRefs(PtrRef, ps, c);
    hide RefsOf;
    if c in ps {
      var i :| 0 <= i < |ps| && ps[i] == c;
      assert c in PtrRef(ps[i]);
    }
  }

  lemma InSlots(slots: seq<Slot>, c: Obj)
    ensures c in RefsOf(SlotRef, slots)
            <==> exists i :: 0 <= i < |slots| && slots[i].Occupied? && slots[i].v == Ptr(c)
  {
    InRefs(SlotRef, slots, c);
    hide RefsOf;
    if i :| 0 <= i < |slots| && slots[i].Occupied? && slots[i].v == Ptr(c) {
      assert c in SlotRef(slots[i]);
    }
  }

  /** What tracing follows is what the fields point to. */
  lemma ChildrenAreFields(p: Payload, c: Obj)
    ensures c in Children(p) <==> InField(p, c)
  {
    hide RefsOf;
    match p
    case List(head, tail) =>
    case Array(data, block) => InValues(data, c);
    case Object(proto, isInline, slots, block) => InSlots(slots, c);
    case Function(index, bound, raw, caps) => InValues(caps, c);
    case Enum(fields) => InValues(fields, c);
    case _ =>
  }

  lemma InCaches(cs: seq<EnumCache>, c: Obj)
    ensures c in RefsOf(CacheRef, cs) <==> exists i :: 0 <= i < |cs| && cs[i].Cache? && c in cs[i].slots
  {
    InRefs(CacheRef, cs, c);
    hide RefsOf;
    forall i | 0 <= i < |cs|
      ensures c in CacheRef(cs[i]) <==> cs[i].Cache? && c in cs[i].slots
    {
      if cs[i].Cache? { InPointers(cs[i].slots, c); }
    }
  }

  lemma InFrames(frames: seq<seq<RegVal>>, c: Obj)
    ensures c in RefsOf(FrameRef, frames)
            <==> exists i, r :: 0 <= i < |frames| && 0 <= r < |frames[i]|
                                && frames[i][r] in {Dynamic(Ptr(c)), Typed(c)}
  {
    InRefs(FrameRef, frames, c);
    hide RefsOf;
    forall i | 0 <= i < |frames|
      ensures c in FrameRef(frames[i])
              <==> exists r :: 0 <= r < |frames[i]| && frames[i][r] in {Dynamic(Ptr(c)), Typed(c)}
    {
      InRefs(RegRef, frames[i], c);
      forall r | 0 <= r < |frames[i]|
        ensures c in RegRef(frames[i][r]) <==> frames[i][r] in {Dynamic(Ptr(c)), Typed(c)}
      {
      }
    }
  }

  lemma RootsAreFields(vm: Heap, c: Obj)
    ensures c in vm.RootSet() <==> InRoots(vm, c)
  {
    InValues(vm.spill, c);
    InValues(vm.roots, c);
    InPointers(vm.constFuns, c);
    InPointers(vm.constBytes, c);
    InCaches(vm.enumCaches, c);
    InFrames(vm.frames, c);
    hide RefsOf;
  }

  // ---- what the machine can reach --------------------------------------------------------------------------

  lemma {:induction false} ChainIsLive(vm: Heap, path: seq<nat>, n: nat)
    requires vm.Valid() && Chain(vm, path) && n < |path|
    ensures vm.objs[path[n]] in vm.Live()
    decreases n
  {
    hide RefsOf, Heap.Lists, Held, Sum, Reach, NoDup, Children, Closed, InRoots, InField;
    KeysOf(vm.objs);
    InSnapshot(vm.objs);
    var g, rs, o := Snapshot(vm.objs), vm.RootSet(), vm.objs[path[n]];
    hide Snapshot, Heap.Unmarked, Heap.FreesBlank, Heap.RootSet;
    if n == 0 {
      RootsAreFields(vm, o);
      RootsReached(g, rs);
    } else {
      ChainIsLive(vm, path, n - 1);
      var before := vm.objs[path[n - 1]];
      ReachClosed(g, rs, before);
      assert InField(vm.objs[path[n - 1]].payload, vm.objs[path[n - 1 + 1]]);
      ChildrenAreFields(before.payload, o);
    }
  }

  lemma {:induction false} LiveHasChain(vm: Heap, o: Obj, n: nat) returns (path: seq<nat>)
    requires vm.Valid() && o in ReachIn(Snapshot(vm.objs), vm.RootSet(), n)
    ensures Chain(vm, path) && vm.objs[path[|path| - 1]] == o
    decreases n
  {
    hide *;
    OnList(vm, o, n);
    var g, rs := Snapshot(vm.objs), vm.RootSet();
    if n == 0 {
      FromRoots(vm, o);
      path := StartChain(vm, o);
    } else if o in ReachIn(g, rs, n - 1) {
      path := LiveHasChain(vm, o, n - 1);
    } else {
      var b := ReachedFrom(g, rs, o, n);
      OnList(vm, b, n - 1);
      InSnapshot(vm.objs);
      var low := LiveHasChain(vm, b, n - 1);
      ChildrenAreFields(b.payload, o);
      path := LongerChain(vm, low, o);
    }
  }

  lemma FromRoots(vm: Heap, o: Obj)
    requires o in ReachIn(Snapshot(vm.objs), vm.RootSet(), 0)
    ensures InRoots(vm, o)
  {
    hide Heap.RootSet, Snapshot;
    RootsAreFields(vm, o);
  }

  lemma ReachedFrom(g: Graph, rs: set<Obj>, o: Obj, n: nat) returns (b: Obj)
    requires n > 0 && o in ReachIn(g, rs, n) && o !in ReachIn(g, rs, n - 1)
    ensures b in ReachIn(g, rs, n - 1) && b in g && o in Children(g[b])
  {
    hide Children;
    b :| b in ReachIn(g, rs, n - 1) && b in g && o in Children(g[b]) && o in g;
  }

  lemma OnList(vm: Heap, o: Obj, n: nat)
    requires o in ReachIn(Snapshot(vm.objs), vm.RootSet(), n)
    ensures o in vm.objs
  {
    KeysOf(vm.objs);
    ReachInHeap(Snapshot(vm.objs), vm.RootSet(), n);
  }

  lemma StartChain(vm: Heap, o: Obj) returns (path: seq<nat>)
    requires o in vm.objs && InRoots(vm, o)
    ensures Chain(vm, path) && vm.objs[path[|path| - 1]] == o
  {
    hide InRoots, InField;
    var k :| 0 <= k < |vm.objs| && vm.objs[k] == o;
    path := [k];
  }

  lemma LongerChain(vm: Heap, low: seq<nat>, o: Obj) returns (path: seq<nat>)
    requires Chain(vm, low) && o in vm.objs && InField(vm.objs[low[|low| - 1]].payload, o)
    ensures Chain(vm, path) && vm.objs[path[|path| - 1]] == o
  {
    hide InRoots, InField;
    var k :| 0 <= k < |vm.objs| && vm.objs[k] == o;
    path := low + [k];
    forall i | 0 <= i < |path| - 1
      ensures InField(vm.objs[path[i]].payload, vm.objs[path[i + 1]])
    {
      if i < |low| - 1 { assert InField(vm.objs[low[i]].payload, vm.objs[low[i + 1]]); }
    }
  }

  /** What is live is what the machine reaches through fields. */
  lemma LiveIsReached(vm: Heap, o: Obj)
    requires vm.Valid()
    ensures o in vm.Live() <==> o in vm.objs && Reached(vm, o)
  {
    hide Heap.Valid, Heap.RootSet, ReachIn, InRoots, InField;
    if o in vm.Live() {
      var n: nat :| o in ReachIn(Snapshot(vm.objs), vm.RootSet(), n);
      var path := LiveHasChain(vm, o, n);
    }
    if o in vm.objs && Reached(vm, o) {
      var path: seq<nat> :| Chain(vm, path) && vm.objs[path[|path| - 1]] == o;
      ChainIsLive(vm, path, |path| - 1);
    }
  }

  /** In good order no field of an object on the list, and none of the machine, points to anything that is not on
      the list. */
  lemma NothingDangles(vm: Heap)
    requires vm.Valid()
    ensures forall o :: o in vm.objs ==>
      match o.payload
      case List(head, tail) => PointsIn(vm, head) && (tail == null || tail in vm.objs)
      case Array(data, block) => forall i :: 0 <= i < |data| ==> PointsIn(vm, data[i])
      case Object(proto, isInline, slots, block) =>
        (proto == null || proto in vm.objs)
        && forall i :: 0 <= i < |slots| && slots[i].Occupied? ==> PointsIn(vm, slots[i].v)
      case Function(index, bound, raw, caps) =>
        PointsIn(vm, bound) && (raw || forall i :: 0 <= i < |caps| ==> PointsIn(vm, caps[i]))
      case Enum(fields) => forall i :: 0 <= i < |fields| ==> PointsIn(vm, fields[i])
      case _ => true
    ensures forall i :: 0 <= i < |vm.spill| ==> PointsIn(vm, vm.spill[i])
    ensures forall i :: 0 <= i < |vm.roots| ==> PointsIn(vm, vm.roots[i])
    ensures forall i :: 0 <= i < |vm.constFuns| ==> vm.constFuns[i] == null || vm.constFuns[i] in vm.objs
    ensures forall i :: 0 <= i < |vm.constBytes| ==> vm.constBytes[i] == null || vm.constBytes[i] in vm.objs
    ensures forall i, k :: 0 <= i < |vm.enumCaches| && vm.enumCaches[i].Cache? && 0 <= k < |vm.enumCaches[i].slots| ==>
              vm.enumCaches[i].slots[k] == null || vm.enumCaches[i].slots[k] in vm.objs
    ensures forall i, r :: vm.running && 0 <= i < |vm.frames| && 0 <= r < |vm.frames[i]| ==>
              match vm.frames[i][r]
              case Dynamic(v) => PointsIn(vm, v)
              case Typed(p) => p == null || p in vm.objs
              case _ => true
  {
    var all := ToSet(vm.objs);
    FieldsOnList(vm);
    forall c: Obj | InRoots(vm, c)
      ensures c in vm.objs
    {
      RootsAreFields(vm, c);
      assert c in all;
    }
    hide Heap.Valid;
    forall i | 0 <= i < |vm.spill| ensures PointsIn(vm, vm.spill[i]) {
      if vm.spill[i].Ptr? && vm.spill[i].o != null { assert InRoots(vm, vm.spill[i].o); }
    }
    forall i | 0 <= i < |vm.roots| ensures PointsIn(vm, vm.roots[i]) {
      if vm.roots[i].Ptr? && vm.roots[i].o != null { assert InRoots(vm, vm.roots[i].o); }
    }
  }

  ghost predicate PointsIn(vm: Heap, v: Val)
    reads vm`objs
  {
    v.Ptr? && v.o != null ==> v.o in vm.objs
  }

  lemma FieldsOnList(vm: Heap)
    requires vm.Valid()
    ensures forall o, c: Obj :: o in vm.objs && InField(o.payload, c) ==> c in vm.objs
  {
    KeysOf(vm.objs);
    InSnapshot(vm.objs);
    assert Closed(Snapshot(vm.objs));
    hide Heap.Valid, Snapshot, InField, Children;
    forall o, c: Obj | o in vm.objs && InField(o.payload, c)
      ensures c in vm.objs
    {
      ChildrenAreFields(o.payload, c);
      assert c in ToSet(vm.objs);
    }
  }

  /** What an object owns: the data of an array that is not empty, a table of its own, and a finalizer that is
      set. */
  lemma Owns(p: Payload, r: Res)
    ensures Holds(p)[r]
         == if (p.Array? && p.data != [] && r == Block(p.block))
               || (p.Object? && !p.isInline && r == Block(p.block))
               || (p.Abstract? && p.owned && r == Finalizer(p.handle)) then 1 else 0
  {
  }

  // ---- a collection ----------------------------------------------------------------------------------------

  /** What comes before what in `after` came before it in `before`. */
  ghost predicate SameOrder(before: seq<Obj>, after: seq<Obj>) {
    forall i, j :: 0 <= i < j < |after| ==>
      exists a, b :: 0 <= a < b < |before| && before[a] == after[i] && before[b] == after[j]
  }

  /** The survivors of a list are in the old order. */
  lemma {:induction false} FilterInOrder(all: seq<Obj>, keep: set<Obj>, i: nat, j: nat) returns (a: nat, b: nat)
    requires i < j < |Filter(all, keep)|
    ensures a < b < |all| && all[a] == Filter(all, keep)[i] && all[b] == Filter(all, keep)[j]
    decreases |all|
  {
    var n := |all| - 1;
    var low := Filter(all[..n], keep);
    if j < |low| {
      a, b := FilterInOrder(all[..n], keep, i, j);
    } else {
      FilterMembers(all[..n], keep);
      assert low[i] in ToSet(low);
      a :| 0 <= a < n && all[..n][a] == low[i];
      b := n;
    }
  }

  /** Only boxes and inline objects that are not live get onto the recycle list; and if there is room for all of
      the list, all of these do. */
  lemma {:induction false} WhatIsRecycled(before: seq<Obj>, all: seq<Obj>, g: Graph, live: set<Obj>, o: Obj)
    requires g.Keys >= ToSet(all) && o !in before && |before| <= 8192
    ensures |before| <= |RecycledAfter(before, all, g, live)| <= 8192
    ensures |RecycledAfter(before, all, g, live)| <= |before| + |all|
    ensures o in RecycledAfter(before, all, g, live) ==>
              o in all && o !in live && (g[o].Box? || (g[o].Object? && g[o].isInline))
    ensures o in all && o !in live && (g[o].Box? || (g[o].Object? && g[o].isInline)) && |before| + |all| <= 8192 ==>
              o in RecycledAfter(before, all, g, live)
    decreases |all|
  {
    if |all| > 0 {
      var n := |all| - 1;
      assert all == all[..n] + [all[n]] && all[n] in ToSet(all);
      assert forall x :: x in all[..n] ==> x in ToSet(all);
      WhatIsRecycled(before, all[..n], g, live, o);
    }
  }

  /** The next collection waits until the live bytes have doubled, or grown by a mebibyte and a half if that is
      more. */
  lemma ThresholdIs(live: nat)
    ensures Threshold(live) == live + if live > 0x18_0000 then live else 0x18_0000
  {
  }

  /** `jello_gc_collect`: exactly the objects that the machine reaches through fields stay on the list, in the old
      order, unchanged and unmarked. Of the others only boxes and inline objects are recycled, and all that are
      not recycled are freed. */
  method Collect(vm: Heap)
    requires vm.Valid()
    modifies vm`gcObjects, vm`objs, vm`boxFree, vm`boxFreeLen, vm`frees, vm`disposed, vm`released
    modifies vm`bytesLive, vm`nextCollect
    modifies ToSet(vm.objs)`next, ToSet(vm.objs)`marked, ToSet(vm.objs)`payload
    ensures vm.Valid()
    ensures forall o :: o in vm.objs <==> o in old(vm.objs) && old(Reached(vm, o))
    ensures forall o :: o in vm.objs ==> o.payload == old(o.payload) && !o.marked
    ensures SameOrder(old(vm.objs), vm.objs)
    ensures forall o :: o in old(vm.objs) && o !in vm.objs ==> o in vm.frees || o in vm.disposed
    ensures forall o :: o in old(vm.objs) && o in vm.frees ==>
              o !in vm.objs && old(o.payload.Box? || (o.payload.Object? && o.payload.isInline))
    ensures |vm.frees| <= 8192
    ensures vm.nextCollect == vm.bytesLive + if vm.bytesLive > 0x18_0000 then vm.bytesLive else 0x18_0000
  {
    hide Heap.Valid, Reached, Filter, RecycledAfter, Threshold, Heap.RootSet, Heap.Live, Heap.Gone, Snapshot;
    ghost var all, g, live, before := vm.objs, Snapshot(vm.objs), vm.Live(), vm.frees;
    ghost var reached := set o | o in all && Reached(vm, o);
    LiveOnList(vm);
    forall o | o in live ensures o in reached {
      LiveIsReached(vm, o);
    }
    forall o | o in reached ensures o in live {
      LiveIsReached(vm, o);
    }
    ListsApart(vm);
    KeysOf(all);
    InSnapshot(all);
    vm.Collect();
    CollectedFacts(vm, all, g, live, before);
    ThresholdIs(vm.bytesLive);
  }

  lemma LiveOnList(vm: Heap)
    requires vm.Valid()
    ensures vm.Live() <= ToSet(vm.objs)
  {
    KeysOf(vm.objs);
  }

  lemma ListsApart(vm: Heap)
    requires vm.Valid()
    ensures |vm.frees| <= 8192 && ToSet(vm.objs) !! ToSet(vm.frees)
  {
    hide Linked, NoDup, Held, Snapshot, Heap.RootSet;
  }

  lemma CollectedFacts(vm: Heap, all: seq<Obj>, g: Graph, live: set<Obj>, before: seq<Obj>)
    requires |before| <= 8192 && ToSet(all) !! ToSet(before) && g.Keys == ToSet(all) && live <= ToSet(all)
    requires vm.objs == Filter(all, live) && vm.Behind(vm.objs, g) && vm.Gone(all, |all|, live)
    requires vm.frees == RecycledAfter(before, all, g, live)
    ensures forall o :: o in vm.objs <==> o in live
    ensures forall o :: o in vm.objs ==> o in g && o.payload == g[o] && !o.marked
    ensures SameOrder(all, vm.objs)
    ensures forall o :: o in all && o !in vm.objs ==> o in vm.frees || o in vm.disposed
    ensures forall o :: o in all && o in vm.frees ==>
              o !in live && o in g && (g[o].Box? || (g[o].Object? && g[o].isInline))
    ensures |vm.frees| <= 8192
  {
    hide Filter, RecycledAfter;
    FilterMembers(all, live);
    assert forall o :: o in vm.objs <==> o in ToSet(vm.objs);
    forall i, j | 0 <= i < j < |vm.objs|
      ensures exists a, b :: 0 <= a < b < |all| && all[a] == vm.objs[i] && all[b] == vm.objs[j]
    {
      var a, b := FilterInOrder(all, live, i, j);
    }
    forall o | o in all && o in vm.frees
      ensures o !in live && o in g && (g[o].Box? || (g[o].Object? && g[o].isInline))
    {
      assert o in ToSet(all);
      WhatIsRecycled(before, all, g, live, o);
    }
    if |all| > 0 {
      assert all[0] in ToSet(all);
      WhatIsRecycled(before, all, g, live, all[0]);
    } else {
      assert RecycledAfter(before, all, g, live) == before by { NothingSwept(before, all, g, live); }
    }
  }

  lemma NothingSwept(before: seq<Obj>, all: seq<Obj>, g: Graph, live: set<Obj>)
    requires all == []
    ensures RecycledAfter(before, all, g, live) == before
  {
  }
}
