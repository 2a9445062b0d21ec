/** Instructions that allocate several objects, and how temporary roots carry the parts over collections
    (src/vm/ops/ops_call.c, src/vm/ops/ops_list.c, src/vm/box.c, src/types). */
module GcOps {
  import opened GcGraph
  import opened GcLists
  import opened GcMark
  import opened GcHeap

  const FUNCTION: nat := 32
  const LIST: nat := 24
  const VALUE: nat := 8
  const MAX_RAW: nat := 256

  ghost predicate InFrame(vm: Heap, r: nat)
    reads vm`frames, vm`running
  {
    vm.running && |vm.frames| > 0 && r < |vm.frames[|vm.frames| - 1]|
  }

  function Reg(vm: Heap, r: nat): RegVal
    requires |vm.frames| > 0 && r < |vm.frames[|vm.frames| - 1]|
    reads vm`frames
  {
    vm.frames[|vm.frames| - 1][r]
  }

  /** The objects of `s` are on the heap `now` with the contents they had `before`. */
  ghost predicate Kept(now: Graph, s: set<Obj>, before: Graph) {
    forall o :: o in s ==> o in now && o in before && now[o] == before[o]
  }

  /** The heap `now` is the heap `before` with `o` added, after the collection if one was due; apart from `o`
      nothing has changed. */
  ghost predicate Placed(due: bool, before: Graph, live: set<Obj>, now: Graph, o: Obj) {
    && o !in live && Kept(now, live, before)
    && (if due then now.Keys == live + {o}
        else now.Keys == before.Keys + {o} && o !in before && Kept(now, before.Keys, before))
  }

  /** `v` is what a register contains, as a boxed value. */
  ghost predicate Stands(now: Graph, r: RegVal, v: Val) {
    match r
    case Narrow(n) => v == Imm(n)
    case Wide(n, slot, box) => v.Ptr? && v.o != null && v.o in now && now[v.o] == Box(box, n)
    case Dynamic(w) => v == w
    case Typed(p) => v == if p == null then Nil else Ptr(p)
  }

  lemma KeptOn(g0: Graph, s: set<Obj>, g1: Graph, t: set<Obj>, g2: Graph)
    requires Kept(g1, s, g0) && Kept(g2, t, g1) && s <= t
    ensures Kept(g2, s, g0)
  {
  }

  lemma StandsOn(g: Graph, s: set<Obj>, g': Graph, r: RegVal, v: Val)
    requires Stands(g, r, v) && ValRef(v) <= s && Kept(g', s, g)
    ensures Stands(g', r, v)
  {
    if r.Wide? {
      assert v.o in ValRef(v);
    }
  }

  // ---- roots and reachability ------------------------------------------------------------------------------

  /** In good order: the roots are on the heap, and so is all they reach. */
  lemma LiveOnHeap(vm: Heap)
    requires vm.Valid()
    ensures vm.RootSet() <= vm.Live() <= ToSet(vm.objs)
    ensures vm.Live() == Reach(Snapshot(vm.objs), vm.RootSet()) && vm.RootSet() <= Snapshot(vm.objs).Keys
    ensures NoDup(vm.objs) && Closed(Snapshot(vm.objs))
  {
    KeysOf(vm.objs);
    RootsReached(Snapshot(vm.objs), vm.RootSet());
  }

  lemma RegisterIsRoot(vm: Heap, r: nat)
    requires InFrame(vm, r)
    ensures RegRef(Reg(vm, r)) <= vm.RootSet()
  {
    RefsHave(FrameRef, vm.frames, |vm.frames| - 1);
    RefsHave(RegRef, vm.frames[|vm.frames| - 1], r);
  }

  lemma TemporaryIsRoot(vm: Heap, i: nat)
    requires i < |vm.roots|
    ensures ValRef(vm.roots[i]) <= vm.RootSet()
  {
    RefsHave(ValRef, vm.roots, i);
  }

  /** What was live stays live while its contents stay the same and no root is dropped. */
  lemma LiveGrows(vm: Heap, g: Graph, rs: set<Obj>, live: set<Obj>)
    requires vm.Valid() && Closed(g) && rs <= g.Keys && rs <= vm.RootSet()
    requires live == Reach(g, rs) && Kept(Snapshot(vm.objs), live, g)
    ensures live <= vm.Live()
  {
    KeysOf(vm.objs);
    InSnapshot(vm.objs);
    ReachGrows(g, rs, Snapshot(vm.objs), vm.RootSet());
  }

  /** While the roots are the same, nothing else becomes live. */
  lemma LiveSame(vm: Heap, g: Graph, rs: set<Obj>, live: set<Obj>)
    requires vm.Valid() && Closed(g) && rs <= g.Keys && rs == vm.RootSet()
    requires live == Reach(g, rs) && Kept(Snapshot(vm.objs), live, g)
    ensures live == vm.Live()
  {
    LiveGrows(vm, g, rs, live);
    RootsReached(g, rs);
    forall o | o in live
      ensures Children(Snapshot(vm.objs)[o]) <= live
    {
      ReachClosed(g, rs, o);
    }
    ReachLeast(Snapshot(vm.objs), rs, live);
  }

  lemma FrontApart(objs: seq<Obj>)
    requires |objs| > 0 && NoDup(objs)
    ensures ToSet(objs) == ToSet(objs[1..]) + {objs[0]} && objs[0] !in ToSet(objs[1..]) && objs[0] in objs
  {
    assert objs == [objs[0]] + objs[1..];
    ToSetAppend([objs[0]], objs[1..]);
  }

  lemma BehindKept(vm: Heap, rest: seq<Obj>, g: Graph)
    requires vm.Behind(rest, g) && ToSet(rest) <= ToSet(vm.objs)
    ensures Kept(Snapshot(vm.objs), ToSet(rest), g)
  {
    hide NoDup;
    forall o | o in ToSet(rest)
      ensures o in g && o.payload == g[o]
    {
      var k :| 0 <= k < |rest| && rest[k] == o;
    }
  }

  /** What an allocation leaves on the heap. */
  lemma AllocPlaces(vm: Heap, before: seq<Obj>, g: Graph, due: bool, live: set<Obj>)
    requires |vm.objs| > 0 && live <= ToSet(before) && g.Keys == ToSet(before)
    requires vm.objs[1..] == if due then Filter(before, live) else before
    requires vm.Behind(vm.objs[1..], g) && NoDup(vm.objs)
    ensures Placed(due, g, live, Snapshot(vm.objs), vm.objs[0]) && vm.objs[0] in vm.objs
  {
    hide Snapshot, ToSet, NoDup, Filter, Heap.Behind;
    FilterMembers(before, live);
    KeysOf(vm.objs);
    FrontApart(vm.objs);
    BehindKept(vm, vm.objs[1..], g);
  }

  lemma PlacedNew(due: bool, before: Graph, live: set<Obj>, now: Graph, o: Obj)
    requires Placed(due, before, live, now, o)
    ensures o in now && o !in live && Kept(now, live, before)
  {
  }

  lemma PlacedWrite(due: bool, before: Graph, live: set<Obj>, now: Graph, o: Obj, now': Graph)
    requires Placed(due, before, live, now, o) && now'.Keys == now.Keys
    requires forall x :: x in now && x != o ==> now'[x] == now[x]
    ensures Placed(due, before, live, now', o) && Kept(now', live, before)
  {
  }

  // ---- allocation of initialized objects -------------------------------------------------------------------

  /** `jello_box_*_new`, `jello_list_cons`, `jello_closure_new`: allocate, then fill in. The parts must be live
      before, because the allocation may collect. */
  method New(vm: Heap, size: nat, p: Payload) returns (o: Obj)
    requires vm.Valid() && Children(p) <= vm.Live()
    modifies vm`gcObjects, vm`objs, vm`boxFree, vm`boxFreeLen, vm`frees, vm`disposed, vm`issued, vm`released
    modifies vm`bytesLive, vm`nextCollect, vm.Region()
    ensures vm.Valid() && o in vm.objs && o.payload == p && o.totalSize == HEADER + size
    ensures Placed(old(vm.Due()), old(Snapshot(vm.objs)), old(vm.Live()), Snapshot(vm.objs), o)
    ensures Kept(Snapshot(vm.objs), old(vm.Live()), old(Snapshot(vm.objs))) && vm.Live() == old(vm.Live())
    ensures vm.bytesLive == old(vm.InUse()) + HEADER + size && vm.nextCollect == old(vm.Limit())
    ensures fresh(vm.Region() - old(vm.Region()))
  {
    hide Snapshot, Children, Reach, Closed, NoDup, Heap.Valid, Heap.Live, Heap.RootSet, Heap.Behind, Filter, Holds;
    hide Heap.InUse, Heap.Limit, Heap.Due, Placed, Kept;
    ghost var live, g, rs, before, due := vm.Live(), Snapshot(vm.objs), vm.RootSet(), vm.objs, vm.Due();
    LiveOnHeap(vm);
    KeysOf(vm.objs);
    var recycled;
    o, recycled := vm.AllocRecycled(size);
    LiveOnHeap(vm);
    AllocPlaces(vm, before, g, due, live);
    PlacedKeeps(vm, due, g, live, o);
    ghost var now := Snapshot(vm.objs);
    InSnapshot(vm.objs);
    KeysOf(vm.objs);
    vm.Write(o, p);
    InSnapshot(vm.objs);
    KeysOf(vm.objs);
    PlacedWrite(due, g, live, now, o, Snapshot(vm.objs));
    LiveSame(vm, g, rs, live);
  }

  lemma PlacedKeeps(vm: Heap, due: bool, g: Graph, live: set<Obj>, o: Obj)
    requires Placed(due, g, live, Snapshot(vm.objs), o)
    ensures live <= ToSet(vm.objs)
  {
    KeysOf(vm.objs);
  }

  /** `vm_box_from_typed`: the contents of a register as a value. */
  method BoxFromTyped(vm: Heap, r: nat) returns (v: Val)
    requires vm.Valid() && InFrame(vm, r)
    modifies vm`gcObjects, vm`objs, vm`boxFree, vm`boxFreeLen, vm`frees, vm`disposed, vm`issued, vm`released
    modifies vm`bytesLive, vm`nextCollect, vm.Region()
    ensures vm.Valid() && Stands(Snapshot(vm.objs), Reg(vm, r), v) && ValRef(v) <= ToSet(vm.objs)
    ensures Kept(Snapshot(vm.objs), old(vm.Live()), old(Snapshot(vm.objs))) && old(vm.Live()) <= vm.Live()
    ensures fresh(vm.Region() - old(vm.Region()))
  {
    hide Heap.Valid, Heap.Live, Snapshot, Holds;
    LiveOnHeap(vm);
    RegisterIsRoot(vm, r);
    AllKept(vm);
    match Reg(vm, r)
    case Narrow(n) => v := Imm(n);
    case Wide(n, slot, box) =>
      BoxIsPlain(box, n);
      var o := New(vm, box, Box(box, n));
      InSnapshot(vm.objs);
      v := Ptr(o);
    case Dynamic(w) => v := w;
    case Typed(p) => v := if p == null then Nil else Ptr(p);
  }

  lemma AllKept(vm: Heap)
    requires vm.Valid()
    ensures Kept(Snapshot(vm.objs), vm.Live(), Snapshot(vm.objs))
  {
    LiveOnHeap(vm);
    InSnapshot(vm.objs);
  }

  lemma BoxIsPlain(size: nat, n: int)
    ensures Children(Box(size, n)) == {}
  {
  }

  ghost predicate IsBox(g: Graph, v: Val) {
    v.Ptr? && v.o in g && g[v.o].Box?
  }

  /** `w` is another box with the same contents if `v` is a numeric box, and `v` otherwise. */
  ghost predicate Cloned(before: Graph, now: Graph, v: Val, w: Val) {
    if IsBox(before, v)
    then w.Ptr? && w.o != v.o && w.o in now && now[w.o] == before[v.o]
    else w == v
  }

  /** `vm_clone_numbox`: a numeric box is copied, which allocates; anything else is left as it is. */
  method CloneNumbox(vm: Heap, v: Val) returns (w: Val)
    requires vm.Valid() && ValRef(v) <= vm.Live()
    modifies vm`gcObjects, vm`objs, vm`boxFree, vm`boxFreeLen, vm`frees, vm`disposed, vm`issued, vm`released
    modifies vm`bytesLive, vm`nextCollect, vm.Region()
    ensures vm.Valid() && ValRef(w) <= ToSet(vm.objs)
    ensures Cloned(old(Snapshot(vm.objs)), Snapshot(vm.objs), v, w)
    ensures Kept(Snapshot(vm.objs), old(vm.Live()), old(Snapshot(vm.objs))) && vm.Live() == old(vm.Live())
    ensures IsBox(old(Snapshot(vm.objs)), v) ==>
      && w.Ptr? && w.o != null && w.o.payload == old(v.o.payload)
      && Placed(old(vm.Due()), old(Snapshot(vm.objs)), old(vm.Live()), Snapshot(vm.objs), w.o)
      && vm.bytesLive == old(vm.InUse()) + HEADER + w.o.payload.size && vm.nextCollect == old(vm.Limit())
    ensures !IsBox(old(Snapshot(vm.objs)), v) ==>
      Snapshot(vm.objs) == old(Snapshot(vm.objs)) && vm.bytesLive == old(vm.bytesLive)
      && vm.nextCollect == old(vm.nextCollect)
    ensures fresh(vm.Region() - old(vm.Region()))
  {
    hide Heap.Valid, Heap.Live, Heap.RootSet, Snapshot, Holds, Placed, Kept, Heap.InUse, Heap.Limit, Heap.Due;
    LiveOnHeap(vm);
    AllKept(vm);
    InSnapshot(vm.objs);
    KeysOf(vm.objs);
    ghost var due, g, live := vm.Due(), Snapshot(vm.objs), vm.Live();
    if v.Ptr? && v.o != null && v.o.payload.Box? {
      assert v.o in ValRef(v) && v.o in live;
      BoxIsPlain(v.o.payload.size, v.o.payload.bits);
      var o := New(vm, v.o.payload.size, v.o.payload);
      PlacedNew(due, g, live, Snapshot(vm.objs), o);
      InSnapshot(vm.objs);
      w := Ptr(o);
    } else {
      w := v;
    }
  }

  /** `jello_gc_push_root`: what was live stays live. */
  method PushTemp(vm: Heap, v: Val)
    requires vm.Valid() && ValRef(v) <= ToSet(vm.objs)
    modifies vm`roots
    ensures vm.Valid() && vm.roots == old(vm.roots) + [v] && old(vm.Live()) <= vm.Live()
  {
    hide Heap.Valid, Heap.Live, Heap.RootSet, Snapshot, Reach, Closed, Kept;
    ghost var g, rs, live := Snapshot(vm.objs), vm.RootSet(), vm.Live();
    LiveOnHeap(vm);
    AllKept(vm);
    vm.PushRoot(v);
    LiveGrows(vm, g, rs, live);
  }

  // ---- closures ------------------------------------------------------------------------------------------

  /** The registers whose captures need no boxing. */
  predicate Plain(r: RegVal) {
    r.Narrow? || r.Wide?
  }

  function Regs(vm: Heap, first: nat, n: nat): seq<RegVal>
    requires |vm.frames| > 0 && first + n <= |vm.frames[|vm.frames| - 1]|
    reads vm`frames
  {
    vm.frames[|vm.frames| - 1][first..first + n]
  }

  /** The values made so far stand for the first registers. */
  ghost predicate AllStand(now: Graph, regs: seq<RegVal>, tmp: seq<Val>) {
    |tmp| <= |regs| && forall j :: 0 <= j < |tmp| ==> Stands(now, regs[j], tmp[j])
  }

  lemma AllStandOn(g: Graph, live: set<Obj>, now: Graph, regs: seq<RegVal>, tmp: seq<Val>, v: Val)
    requires AllStand(g, regs, tmp) && Kept(now, live, g) && |tmp| < |regs| && Stands(now, regs[|tmp|], v)
    requires forall j :: 0 <= j < |tmp| ==> ValRef(tmp[j]) <= live
    ensures AllStand(now, regs, tmp + [v])
  {
    hide Stands, Kept, ValRef;
    forall j | 0 <= j < |tmp|
      ensures Stands(now, regs[j], tmp[j])
    {
      StandsOn(g, live, now, regs[j], tmp[j]);
    }
  }

  /** The loop that boxes the captures: every value goes onto the root stack before the next one is made. */
  method BoxCaptures(vm: Heap, first: nat, n: nat) returns (tmp: seq<Val>)
    requires vm.Valid() && vm.running && |vm.frames| > 0 && first + n <= |vm.frames[|vm.frames| - 1]|
    modifies vm`gcObjects, vm`objs, vm`boxFree, vm`boxFreeLen, vm`frees, vm`disposed, vm`issued, vm`released
    modifies vm`bytesLive, vm`nextCollect, vm`roots, vm.Region()
    ensures vm.Valid() && |tmp| == n && vm.roots == old(vm.roots) + tmp
    ensures forall i :: 0 <= i < n ==> Stands(Snapshot(vm.objs), Regs(vm, first, n)[i], tmp[i])
    ensures forall i :: 0 <= i < n ==> ValRef(tmp[i]) <= vm.Live()
    ensures Kept(Snapshot(vm.objs), old(vm.Live()), old(Snapshot(vm.objs))) && old(vm.Live()) <= vm.Live()
    ensures fresh(vm.Region() - old(vm.Region()))
  {
    hide Heap.Valid, Heap.Live, Heap.RootSet, Snapshot, Stands, Kept, ValRef, RegRef;
    ghost var g0, live0 := Snapshot(vm.objs), vm.Live();
    ghost var regs := Regs(vm, first, n);
    AllKept(vm);
    tmp := [];
    assert AllStand(Snapshot(vm.objs), regs, tmp);
    for i := 0 to n
      invariant vm.Valid() && |tmp| == i && vm.roots == old(vm.roots) + tmp
      invariant AllStand(Snapshot(vm.objs), regs, tmp)
      invariant Kept(Snapshot(vm.objs), live0, g0) && live0 <= vm.Live()
      invariant fresh(vm.Region() - old(vm.Region()))
    {
      TemporariesLive(vm, old(vm.roots), tmp);
      ghost var g, live := Snapshot(vm.objs), vm.Live();
      var v := BoxFromTyped(vm, first + i);
      KeptOn(g0, live0, g, live, Snapshot(vm.objs));
      AllStandOn(g, live, Snapshot(vm.objs), regs, tmp, v);
      PushTemp(vm, v);
      tmp := tmp + [v];
    }
    TemporariesLive(vm, old(vm.roots), tmp);
  }

  lemma TemporariesLive(vm: Heap, below: seq<Val>, tmp: seq<Val>)
    requires vm.Valid() && vm.roots == below + tmp
    ensures forall i :: 0 <= i < |tmp| ==> ValRef(tmp[i]) <= vm.Live()
  {
    LiveOnHeap(vm);
    forall i | 0 <= i < |tmp|
      ensures ValRef(tmp[i]) <= vm.Live()
    {
      TemporaryIsRoot(vm, |below| + i);
    }
  }

  /** A store into a register of the running frame (`vm_store_ptr`). */
  method StoreReg(vm: Heap, a: nat, x: RegVal)
    requires vm.Valid() && InFrame(vm, a) && RegRef(x) <= ToSet(vm.objs)
    modifies vm`frames
    ensures vm.Valid()
    ensures var n := |old(vm.frames)| - 1;
      vm.frames == old(vm.frames)[n := old(vm.frames)[n][a := x]]
  {
    FramesOnHeap(vm, a, x);
    var n := |vm.frames| - 1;
    SetFrames(vm, vm.frames[n := vm.frames[n][a := x]]);
  }

  method SetFrames(vm: Heap, frames: seq<seq<RegVal>>)
    requires vm.Valid() && RefsOf(FrameRef, frames) <= ToSet(vm.objs)
    modifies vm`frames
    ensures vm.Valid() && vm.frames == frames
  {
    hide Heap.Lists, Heap.Unmarked, Heap.FreesBlank, Closed, Snapshot, Held, Sum, RefsOf, ToSet;
    vm.frames := frames;
  }

  lemma FramesOnHeap(vm: Heap, a: nat, x: RegVal)
    requires vm.Valid() && InFrame(vm, a) && RegRef(x) <= ToSet(vm.objs)
    ensures var n := |vm.frames| - 1;
      RefsOf(FrameRef, vm.frames[n := vm.frames[n][a := x]]) <= ToSet(vm.objs)
  {
    var n, all := |vm.frames| - 1, ToSet(vm.objs);
    var regs := vm.frames[n][a := x];
    var frames := vm.frames[n := regs];
    assert RefsOf(FrameRef, vm.frames) <= all;
    hide Heap.Valid;
    forall i | 0 <= i < |regs|
      ensures RegRef(regs[i]) <= all
    {
      RefsHave(FrameRef, vm.frames, n);
      RefsHave(RegRef, vm.frames[n], i);
    }
    RefsWithin(RegRef, regs, all);
    forall i | 0 <= i < |frames|
      ensures FrameRef(frames[i]) <= all
    {
      RefsHave(FrameRef, vm.frames, i);
    }
    RefsWithin(FrameRef, frames, all);
  }

  /** `op_closure`: plain captures are copied raw if they are not too long; otherwise every capture is boxed.
      The closure holds the contents of the captured registers, whatever was collected on the way; what was
      live is unchanged; and the root stack is back at its old height. */
  method Closure(vm: Heap, a: nat, first: nat, n: nat, index: nat) returns (clo: Obj)
    requires vm.Valid() && InFrame(vm, a) && first + n <= |vm.frames[|vm.frames| - 1]|
    modifies vm`gcObjects, vm`objs, vm`boxFree, vm`boxFreeLen, vm`frees, vm`disposed, vm`issued, vm`released
    modifies vm`bytesLive, vm`nextCollect, vm`roots, vm`frames, vm.Region()
    ensures vm.Valid() && vm.roots == old(vm.roots)
    ensures clo in vm.objs && IsClosure(Snapshot(vm.objs), clo, index, old(Regs(vm, first, n)))
    ensures clo.payload.Function? && (clo.payload.raw <==> FitRaw(old(Regs(vm, first, n))))
    ensures var top := |old(vm.frames)| - 1;
      vm.frames == old(vm.frames)[top := old(vm.frames)[top][a := Typed(clo)]]
    ensures Kept(Snapshot(vm.objs), old(vm.Live()), old(Snapshot(vm.objs)))
  {
    hide Heap.Valid, Heap.Live, Heap.RootSet, Snapshot, Stands, Kept, ValRef, RegRef, RawSize, Children, IsClosure;
    ghost var g0, live0, regs := Snapshot(vm.objs), vm.Live(), Regs(vm, first, n);
    if n > 0 && (forall i :: 0 <= i < n ==> Plain(Regs(vm, first, n)[i])) && RawSize(Regs(vm, first, n)) <= MAX_RAW {
      clo := RawClosure(vm, index, Regs(vm, first, n));
    } else {
      clo := BoxedClosure(vm, index, first, n);
    }
    ClosureRef(vm, clo);
    StoreReg(vm, a, Typed(clo));
  }

  function RawSize(regs: seq<RegVal>): nat {
    if |regs| == 0 then 0
    else RawSize(regs[..|regs| - 1]) + SlotOf(regs[|regs| - 1])
  }

  function SlotOf(r: RegVal): nat {
    if r.Wide? then r.slot else 4
  }

  /** The bits of a plain register, as they are copied into a raw closure. */
  function Bits(r: RegVal): Val {
    if r.Narrow? || r.Wide? then Imm(r.n) else Nil
  }

  /** A closure over the contents of `regs`. */
  ghost predicate IsClosure(now: Graph, clo: Obj, index: nat, regs: seq<RegVal>) {
    && clo in now && now[clo].Function? && now[clo].index == index && now[clo].bound == Nil
    && |now[clo].caps| == |regs|
    && forall i :: 0 <= i < |regs| ==>
      if now[clo].raw then Plain(regs[i]) && now[clo].caps[i] == Bits(regs[i])
      else Stands(now, regs[i], now[clo].caps[i])
  }

  /** Captures that are copied raw: numbers, and no more than 256 bytes of them. */
  predicate FitRaw(regs: seq<RegVal>) {
    |regs| > 0 && RawSize(regs) <= 256 && forall i :: 0 <= i < |regs| ==> regs[i].Narrow? || regs[i].Wide?
  }

  /** What a closure holds, by kind of the captured register: numbers as they are in a raw one, and wide ones in
      boxes of their own otherwise; dynamic values and pointers only in a boxed one. */
  lemma ClosureHolds(now: Graph, clo: Obj, index: nat, regs: seq<RegVal>, i: nat)
    requires IsClosure(now, clo, index, regs) && i < |regs|
    ensures var p := now[clo];
      && p.index == index && p.bound == Nil && |p.caps| == |regs|
      && match regs[i]
         case Narrow(n) => p.caps[i] == Imm(n)
         case Wide(n, slot, box) =>
           if p.raw then p.caps[i] == Imm(n)
           else p.caps[i].Ptr? && p.caps[i].o in now && now[p.caps[i].o] == Box(box, n)
         case Dynamic(v) => !p.raw && p.caps[i] == v
         case Typed(q) => !p.raw && p.caps[i] == (if q == null then Nil else Ptr(q))
  {
  }

  /** The bytes of raw captures: eight or whatever a wide one takes, and four for any other. */
  lemma RawSizeNext(regs: seq<RegVal>, r: RegVal)
    ensures RawSize([]) == 0
    ensures RawSize(regs + [r]) == RawSize(regs) + (if r.Wide? then r.slot else 4)
  {
    assert (regs + [r])[..|regs|] == regs;
  }

  lemma ClosureRef(vm: Heap, clo: Obj)
    requires clo in vm.objs
    ensures RegRef(Typed(clo)) <= ToSet(vm.objs)
  {
  }

  method RawClosure(vm: Heap, index: nat, regs: seq<RegVal>) returns (clo: Obj)
    requires vm.Valid() && forall i :: 0 <= i < |regs| ==> Plain(regs[i])
    modifies vm`gcObjects, vm`objs, vm`boxFree, vm`boxFreeLen, vm`frees, vm`disposed, vm`issued, vm`released
    modifies vm`bytesLive, vm`nextCollect, vm.Region()
    ensures vm.Valid() && clo in vm.objs && IsClosure(Snapshot(vm.objs), clo, index, regs)
    ensures clo.payload.Function? && clo.payload.raw
    ensures Kept(Snapshot(vm.objs), old(vm.Live()), old(Snapshot(vm.objs)))
    ensures fresh(vm.Region() - old(vm.Region()))
  {
    hide Heap.Valid, Heap.Live, Snapshot, Kept;
    var raw := seq(|regs|, i requires 0 <= i < |regs| => Bits(regs[i]));
    RawIsPlain(index, raw);
    clo := New(vm, FUNCTION + RawSize(regs), Function(index, Nil, true, raw));
    InSnapshot(vm.objs);
  }

  lemma RawIsPlain(index: nat, raw: seq<Val>)
    ensures Children(Function(index, Nil, true, raw)) == {}
  {
  }

  /** The boxed path. */
  method BoxedClosure(vm: Heap, index: nat, first: nat, n: nat) returns (clo: Obj)
    requires vm.Valid() && vm.running && |vm.frames| > 0 && first + n <= |vm.frames[|vm.frames| - 1]|
    modifies vm`gcObjects, vm`objs, vm`boxFree, vm`boxFreeLen, vm`frees, vm`disposed, vm`issued, vm`released
    modifies vm`bytesLive, vm`nextCollect, vm`roots, vm.Region()
    ensures vm.Valid() && vm.roots == old(vm.roots)
    ensures clo in vm.objs && IsClosure(Snapshot(vm.objs), clo, index, Regs(vm, first, n))
    ensures clo.payload.Function? && !clo.payload.raw
    ensures Kept(Snapshot(vm.objs), old(vm.Live()), old(Snapshot(vm.objs)))
    ensures fresh(vm.Region() - old(vm.Region()))
  {
    hide Heap.Valid, Heap.Live, Snapshot, Kept, Stands, ValRef, RefsOf, RegRef;
    ghost var g0, live0, regs := Snapshot(vm.objs), vm.Live(), Regs(vm, first, n);
    var tmp := BoxCaptures(vm, first, n);
    ghost var g, live := Snapshot(vm.objs), vm.Live();
    RefsWithin(ValRef, tmp, live);
    CapturesOnly(index, tmp);
    clo := New(vm, FUNCTION + VALUE * n, Function(index, Nil, false, tmp));
    KeptOn(g0, live0, g, live, Snapshot(vm.objs));
    forall i | 0 <= i < n
      ensures Stands(Snapshot(vm.objs), regs[i], tmp[i])
    {
      StandsOn(g, live, Snapshot(vm.objs), regs[i], tmp[i]);
    }
    InSnapshot(vm.objs);
    var panics := vm.PopRoots(n);
  }

  lemma CapturesOnly(index: nat, caps: seq<Val>)
    ensures Children(Function(index, Nil, false, caps)) == RefsOf(ValRef, caps)
  {
  }

  // ---- lists -----------------------------------------------------------------------------------------------

  /** What a list cell is headed by: the contents of the register, with a dynamic numeric box copied. */
  ghost predicate Heads(before: Graph, now: Graph, r: RegVal, v: Val) {
    if r.Dynamic? && r.v.Ptr? && r.v.o in before && before[r.v.o].Box?
    then v.Ptr? && v.o in now && v.o != r.v.o && now[v.o] == before[r.v.o]
    else Stands(now, r, v)
  }

  /** `op_list_cons`: the head is boxed, or copied, and kept on the root stack while the cell is allocated;
      the tail is kept by its register. */
  method ListCons(vm: Heap, a: nat, b: nat, c: nat) returns (node: Obj)
    requires vm.Valid() && InFrame(vm, a) && InFrame(vm, b) && InFrame(vm, c) && Reg(vm, c).Typed?
    modifies vm`gcObjects, vm`objs, vm`boxFree, vm`boxFreeLen, vm`frees, vm`disposed, vm`issued, vm`released
    modifies vm`bytesLive, vm`nextCollect, vm`roots, vm`frames, vm.Region()
    ensures vm.Valid() && vm.roots == old(vm.roots)
    ensures node in vm.objs && node.payload.List? && node.payload.tail == old(Reg(vm, c)).p
    ensures Heads(old(Snapshot(vm.objs)), Snapshot(vm.objs), old(Reg(vm, b)), node.payload.head)
    ensures var top := |old(vm.frames)| - 1;
      vm.frames == old(vm.frames)[top := old(vm.frames)[top][a := Typed(node)]]
    ensures Kept(Snapshot(vm.objs), old(vm.Live()), old(Snapshot(vm.objs)))
  {
    hide Heap.Valid, Heap.Live, Heap.RootSet, Snapshot, Stands, Kept, ValRef, RegRef, Children, Heads;
    ghost var g0, live0 := Snapshot(vm.objs), vm.Live();
    var head := ListHead(vm, b);
    ghost var g1, live1 := Snapshot(vm.objs), vm.Live();
    var tail := Reg(vm, c).p;
    TailLive(vm, c, head);
    node := New(vm, LIST, List(head, tail));
    KeptOn(g0, live0, g1, live1, Snapshot(vm.objs));
    HeadsOn(g0, g1, live1, Snapshot(vm.objs), Reg(vm, b), head);
    var panics := vm.PopRoots(1);
    ClosureRef(vm, node);
    StoreReg(vm, a, Typed(node));
  }

  /** The head of a new cell, by kind of the register: a number as it is or in a box of its own, a pointer, and a
      dynamic value, of which a numeric box is another one with the same contents. */
  lemma HeadHolds(before: Graph, now: Graph, r: RegVal, v: Val)
    requires Heads(before, now, r, v)
    ensures match r
      case Narrow(n) => v == Imm(n)
      case Wide(n, slot, box) => v.Ptr? && v.o in now && now[v.o] == Box(box, n)
      case Typed(q) => v == if q == null then Nil else Ptr(q)
      case Dynamic(w) =>
        if w.Ptr? && w.o in before && before[w.o].Box? then
          v.Ptr? && v.o in now && v.o != w.o && now[v.o] == before[w.o]
        else v == w
  {
  }

  lemma TailLive(vm: Heap, c: nat, head: Val)
    requires vm.Valid() && InFrame(vm, c) && Reg(vm, c).Typed? && ValRef(head) <= vm.Live()
    ensures Children(List(head, Reg(vm, c).p)) <= vm.Live()
  {
    LiveOnHeap(vm);
    RegisterIsRoot(vm, c);
  }

  lemma HeadsOn(g0: Graph, g1: Graph, live: set<Obj>, g2: Graph, r: RegVal, v: Val)
    requires Heads(g0, g1, r, v) && ValRef(v) <= live && Kept(g2, live, g1)
    ensures Heads(g0, g2, r, v)
  {
    if v.Ptr? && v.o != null {
      assert v.o in ValRef(v);
    }
  }

  /** The head of the new cell, on the root stack. */
  method ListHead(vm: Heap, b: nat) returns (head: Val)
    requires vm.Valid() && InFrame(vm, b)
    modifies vm`gcObjects, vm`objs, vm`boxFree, vm`boxFreeLen, vm`frees, vm`disposed, vm`issued, vm`released
    modifies vm`bytesLive, vm`nextCollect, vm`roots, vm.Region()
    ensures vm.Valid() && vm.roots == old(vm.roots) + [head] && ValRef(head) <= vm.Live()
    ensures Heads(old(Snapshot(vm.objs)), Snapshot(vm.objs), Reg(vm, b), head)
    ensures Kept(Snapshot(vm.objs), old(vm.Live()), old(Snapshot(vm.objs))) && old(vm.Live()) <= vm.Live()
    ensures fresh(vm.Region() - old(vm.Region()))
  {
    hide Heap.Valid, Heap.Live, Heap.RootSet, Snapshot, Kept, RegRef, Stands, Heads, ValRef, Cloned, IsBox, Placed;
    hide Heap.InUse, Heap.Limit, Heap.Due, Children, RefsOf, Holds, Reach, NoDup;
    ghost var g0, live0 := Snapshot(vm.objs), vm.Live();
    LiveOnHeap(vm);
    RegisterIsRoot(vm, b);
    head := BoxFromTyped(vm, b);
    if Reg(vm, b).Dynamic? {
      ghost var g1, live1 := Snapshot(vm.objs), vm.Live();
      RegisterIsRoot(vm, b);
      DynamicRef(Reg(vm, b), head, g1);
      LiveOnHeap(vm);
      head := CloneNumbox(vm, head);
      KeptOn(g0, live0, g1, live1, Snapshot(vm.objs));
      ClonedHead(g0, live0, g1, Snapshot(vm.objs), Reg(vm, b), head);
    } else {
      PlainHead(g0, Snapshot(vm.objs), Reg(vm, b), head);
    }
    PushTemp(vm, head);
    TemporariesLive(vm, old(vm.roots), [head]);
    assert [head][0] == head;
  }

  lemma PlainHead(g0: Graph, g1: Graph, r: RegVal, v: Val)
    requires Stands(g1, r, v) && !r.Dynamic?
    ensures Heads(g0, g1, r, v)
  {
  }

  /** The head is as `vm_clone_numbox` left it. */
  lemma ClonedHead(g0: Graph, live0: set<Obj>, g1: Graph, g2: Graph, r: RegVal, w: Val)
    requires r.Dynamic? && RegRef(r) <= live0 && Kept(g1, live0, g0)
    requires Cloned(g1, g2, r.v, w)
    ensures Heads(g0, g2, r, w)
  {
    if r.v.Ptr? && r.v.o != null {
      assert r.v.o in RegRef(r);
    }
  }

  lemma DynamicRef(r: RegVal, v: Val, g: Graph)
    requires r.Dynamic? && Stands(g, r, v)
    ensures RegRef(r) == ValRef(r.v) && v == r.v
  {
  }
}
