/** Instructions that allocate while an object they have just made is in no root, and when a collection takes that
    object (`jello_object_copy` in src/types/object.c, `vm_wrap_catch_payload` in src/vm/exc.c). */
module GcCopy {
  import opened GcGraph
  import opened GcLists
  import opened GcMark
  import opened GcHeap
  import opened GcOps

  /** `jello_object_empty_alloc_bytes`, and the fixed part of a `jello_bytes`. */
  const OBJECT: nat := 192
  const BYTES: nat := 12

  const NEW_OBJECT: Payload := Object(null, true, [], 0)

  /** A field more. With the sixth one the table leaves the block of the object, for a block of its own. */
  function WithField(p: Payload, key: nat, v: Val, block: nat): Payload
    requires p.Object?
  {
    var fits := p.isInline && (|p.slots| + 1) * 10 < 8 * 7;
    Object(p.proto, fits, p.slots + [Occupied(key, v)], if fits || !p.isInline then p.block else block)
  }

  // ---- objects that nothing refers to ----------------------------------------------------------------------

  /** `o` is on the heap, and no root reaches it. */
  ghost predicate Loose(vm: Heap, o: Obj)
    reads vm, vm.objs
  {
    o in vm.objs && o !in vm.Live()
  }

  /** A write to an object that is not live changes nothing else, and does not make it live. */
  method WriteLoose(vm: Heap, o: Obj, p: Payload)
    requires vm.Valid() && Loose(vm, o) && Children(p) <= ToSet(vm.objs)
    modifies o`payload, vm`issued, vm`released
    ensures vm.Valid() && Loose(vm, o) && vm.Live() == old(vm.Live()) && o.payload == p
    ensures Snapshot(vm.objs) == old(Snapshot(vm.objs))[o := p]
    ensures Kept(Snapshot(vm.objs), vm.Live(), old(Snapshot(vm.objs)))
  {
    hide Heap.Valid, Heap.RootSet, Heap.Live, Snapshot, Holds, Children, Closed, Reach;
    ghost var g, rs, live := Snapshot(vm.objs), vm.RootSet(), vm.Live();
    LiveOnHeap(vm);
    KeysOf(vm.objs);
    InSnapshot(vm.objs);
    vm.Write(o, p);
    KeysOf(vm.objs);
    InSnapshot(vm.objs);
    LiveSame(vm, g, rs, live);
  }

  /** What an allocation does to an object that is in no root. */
  lemma LooseAfter(vm: Heap, dst: Obj, due: bool, g: Graph, live: set<Obj>, o: Obj)
    requires dst in g && dst !in live && Placed(due, g, live, Snapshot(vm.objs), o) && vm.Live() == live
    ensures !due ==> Loose(vm, dst) && dst != o && Snapshot(vm.objs)[dst] == g[dst]
    ensures due ==> !(dst in vm.objs && dst != o)
  {
    KeysOf(vm.objs);
  }

  // ---- copying an object -----------------------------------------------------------------------------------

  /** The fields of a table, in order. */
  function Fields(slots: seq<Slot>): (fs: seq<Slot>)
    ensures forall i :: 0 <= i < |fs| ==> fs[i].Occupied? && fs[i] in slots
  {
    if |slots| == 0 then []
    else
      var n := |slots| - 1;
      var fs := Fields(slots[..n]);
      if slots[n].Occupied? then fs + [slots[n]] else fs
  }

  /** They are the occupied slots. */
  lemma {:induction false} FieldsAre(slots: seq<Slot>, s: Slot)
    ensures s in Fields(slots) <==> s in slots && s.Occupied?
    decreases |slots|
  {
    if |slots| > 0 {
      var n := |slots| - 1;
      FieldsAre(slots[..n], s);
      assert slots == slots[..n] + [slots[n]];
    }
  }

  /** A table stays in the block of its object up to five fields. */
  lemma FiveFieldsFit(p: Payload, key: nat, v: Val, block: nat)
    requires p.Object? && p.isInline
    ensures WithField(p, key, v, block).isInline <==> |p.slots| < 5
    ensures !WithField(p, key, v, block).isInline ==> WithField(p, key, v, block).block == block
  {
  }

  lemma FieldsNext(slots: seq<Slot>, i: nat)
    requires i < |slots|
    ensures Fields(slots[..i + 1]) == if slots[i].Occupied? then Fields(slots[..i]) + [slots[i]] else Fields(slots[..i])
  {
    assert slots[..i + 1][..i] == slots[..i];
  }

  /** The bytes that cloning the values of the fields takes. */
  ghost function Cost(g: Graph, fs: seq<Slot>): nat {
    if |fs| == 0 then 0 else Cost(g, fs[..|fs| - 1]) + CostOf(g, fs[|fs| - 1])
  }

  ghost function CostOf(g: Graph, f: Slot): nat {
    if f.Occupied? && IsBox(g, f.v) then HEADER + g[f.v.o].size else 0
  }

  /** Some clone finds that the threshold has been reached. */
  ghost predicate Collects(g: Graph, fs: seq<Slot>, inUse: nat, limit: nat) {
    limit > 0 && exists i :: 0 <= i < |fs| && CostOf(g, fs[i]) > 0 && inUse + Cost(g, fs[..i]) >= limit
  }

  lemma CollectsNext(g: Graph, fs: seq<Slot>, f: Slot, inUse: nat, limit: nat)
    ensures Cost(g, fs + [f]) == Cost(g, fs) + CostOf(g, f)
    ensures Collects(g, fs + [f], inUse, limit)
            <==> Collects(g, fs, inUse, limit) || (limit > 0 && CostOf(g, f) > 0 && inUse + Cost(g, fs) >= limit)
  {
    var all := fs + [f];
    assert all[..|fs|] == fs;
    assert forall i :: 0 <= i <= |fs| ==> all[..i] == fs[..i];
  }

  lemma {:induction false} CollectsMore(g: Graph, slots: seq<Slot>, i: nat, inUse: nat, limit: nat)
    requires i <= |slots| && Collects(g, Fields(slots[..i]), inUse, limit)
    ensures Collects(g, Fields(slots), inUse, limit)
    decreases |slots| - i
  {
    if i < |slots| {
      FieldsNext(slots, i);
      if slots[i].Occupied? { CollectsNext(g, Fields(slots[..i]), slots[i], inUse, limit); }
      CollectsMore(g, slots, i + 1, inUse, limit);
    } else {
      assert slots[..i] == slots;
    }
  }

  /** The fields `to` are those of `from`, with numeric boxes cloned. */
  ghost predicate CopyOf(before: Graph, now: Graph, from: seq<Slot>, to: seq<Slot>) {
    |from| == |to| &&
    forall i :: 0 <= i < |from| ==>
      from[i].Occupied? && to[i].Occupied? && to[i].key == from[i].key && Cloned(before, now, from[i].v, to[i].v)
  }

  lemma CopyNext(g0: Graph, now: Graph, all: set<Obj>, now': Graph, from: seq<Slot>, to: seq<Slot>, f: Slot, w: Val)
    requires CopyOf(g0, now, from, to) && all == now.Keys && Kept(now', all, now)
    requires f.Occupied? && Cloned(g0, now', f.v, w)
    ensures CopyOf(g0, now', from + [f], to + [Occupied(f.key, w)])
  {
    forall i | 0 <= i < |from|
      ensures Cloned(g0, now', from[i].v, to[i].v)
    {
    }
  }

  lemma ClonedSince(g0: Graph, live: set<Obj>, g: Graph, now: Graph, v: Val, w: Val)
    requires Kept(g, live, g0) && ValRef(v) <= live && Cloned(g, now, v, w)
    ensures Cloned(g0, now, v, w) && (IsBox(g, v) <==> IsBox(g0, v))
    ensures IsBox(g0, v) ==> g[v.o] == g0[v.o]
  {
    if v.Ptr? && v.o != null {
      assert v.o in ValRef(v);
    }
  }

  /** A round of the loop of `jello_object_copy`: the clone, then the field. If the clone collects, the copy is
      gone, and what the source goes on to write to is no object any more. */
  method CopyField(vm: Heap, dst: Obj, f: Slot, block: nat, ghost g0: Graph, ghost from: seq<Slot>)
    returns (lost: bool)
    requires vm.Valid() && Loose(vm, dst) && dst.payload.Object?
    requires f.Occupied? && ValRef(f.v) <= vm.Live() && Kept(Snapshot(vm.objs), vm.Live(), g0)
    requires CopyOf(g0, Snapshot(vm.objs), from, dst.payload.slots)
    modifies vm`gcObjects, vm`objs, vm`boxFree, vm`boxFreeLen, vm`frees, vm`disposed, vm`issued, vm`released
    modifies vm`bytesLive, vm`nextCollect, vm.Region()
    ensures vm.Valid() && vm.Live() == old(vm.Live()) && Kept(Snapshot(vm.objs), vm.Live(), g0)
    ensures lost <==> old(vm.Due()) && CostOf(g0, f) > 0
    ensures lost ==> !(dst in vm.objs && dst.payload.Object?)
    ensures !lost ==>
      && Loose(vm, dst) && dst.payload.Object? && dst.payload.proto == old(dst.payload.proto)
      && CopyOf(g0, Snapshot(vm.objs), from + [f], dst.payload.slots)
      && vm.bytesLive == old(vm.bytesLive) + CostOf(g0, f) && vm.nextCollect == old(vm.nextCollect)
    ensures fresh(vm.Region() - old(vm.Region()))
  {
    hide Heap.Valid, Heap.Live, Snapshot, Placed, Kept, CopyOf, Cloned, Children, Heap.InUse, Heap.Limit, Heap.Due;
    ghost var g, live, due, p := Snapshot(vm.objs), vm.Live(), vm.Due(), dst.payload;
    LiveOnHeap(vm);
    KeysOf(vm.objs);
    InSnapshot(vm.objs);
    var boxed := f.v.Ptr? && f.v.o != null && f.v.o.payload.Box?;
    assert f.v.Ptr? && f.v.o != null ==> f.v.o in ValRef(f.v);
    lost := vm.Due() && boxed;
    Settled(vm);
    var w := CloneNumbox(vm, f.v);
    ClonedSince(g0, live, g, Snapshot(vm.objs), f.v, w);
    Beside(vm, dst, due, g, live, boxed, w);
    InSnapshot(vm.objs);
    KeptOn(g0, live, g, live, Snapshot(vm.objs));
    if lost { return; }
    CopyNext(g0, g, g.Keys, Snapshot(vm.objs), from, p.slots, f, w);
    SetField(vm, dst, f.key, w, block, g0, from + [f]);
  }

  /** `jello_object_set` on the copy, which has no such field yet. */
  method SetField(vm: Heap, dst: Obj, key: nat, w: Val, block: nat, ghost g0: Graph, ghost from: seq<Slot>)
    requires vm.Valid() && Loose(vm, dst) && dst.payload.Object? && ValRef(w) <= ToSet(vm.objs)
    requires Kept(Snapshot(vm.objs), vm.Live(), g0)
    requires CopyOf(g0, Snapshot(vm.objs), from, dst.payload.slots + [Occupied(key, w)])
    modifies dst`payload, vm`issued, vm`released
    ensures vm.Valid() && Loose(vm, dst) && vm.Live() == old(vm.Live())
    ensures dst.payload == WithField(old(dst.payload), key, w, block)
    ensures Kept(Snapshot(vm.objs), vm.Live(), g0) && CopyOf(g0, Snapshot(vm.objs), from, dst.payload.slots)
  {
    hide Heap.Valid, Heap.Live, Snapshot, Kept, CopyOf, Children;
    ghost var now, live := Snapshot(vm.objs), vm.Live();
    KeysOf(vm.objs);
    InSnapshot(vm.objs);
    FieldRefs(dst.payload, key, w, block);
    ChildrenOnHeap(vm, dst);
    WriteLoose(vm, dst, WithField(dst.payload, key, w, block));
    CopyWritten(g0, now, dst, dst.payload, from, dst.payload.slots);
    KeptOn(g0, live, now, live, Snapshot(vm.objs));
  }

  lemma Settled(vm: Heap)
    ensures !vm.Due() ==> vm.InUse() == vm.bytesLive && vm.Limit() == vm.nextCollect
  {
  }

  /** What a clone does to an object that is in no root. */
  lemma Beside(vm: Heap, dst: Obj, due: bool, g: Graph, live: set<Obj>, boxed: bool, w: Val)
    requires dst in g && g[dst].Object? && dst !in live && vm.Live() == live
    requires if boxed then w.Ptr? && w.o != null && w.o.payload.Box? && Placed(due, g, live, Snapshot(vm.objs), w.o)
             else Snapshot(vm.objs) == g
    ensures boxed && due ==> !(dst in vm.objs && dst.payload.Object?)
    ensures !(boxed && due) ==>
      Loose(vm, dst) && dst.payload == g[dst] && Kept(Snapshot(vm.objs), g.Keys, g)
  {
    hide Heap.Live;
    KeysOf(vm.objs);
    InSnapshot(vm.objs);
    if boxed { LooseAfter(vm, dst, due, g, live, w.o); }
  }

  lemma FieldRefs(p: Payload, key: nat, v: Val, block: nat)
    requires p.Object?
    ensures Children(WithField(p, key, v, block)) == Children(p) + ValRef(v)
  {
    RefsSnoc(SlotRef, p.slots, Occupied(key, v));
  }

  lemma ChildrenOnHeap(vm: Heap, o: Obj)
    requires vm.Valid() && o in vm.objs
    ensures Children(o.payload) <= ToSet(vm.objs)
  {
    KeysOf(vm.objs);
    InSnapshot(vm.objs);
    assert Closed(Snapshot(vm.objs));
  }

  /** Clones are boxes, so a write to an object does not touch them. */
  lemma CopyWritten(g0: Graph, now: Graph, dst: Obj, p: Payload, from: seq<Slot>, to: seq<Slot>)
    requires CopyOf(g0, now, from, to) && dst in now && now[dst].Object?
    ensures CopyOf(g0, now[dst := p], from, to)
  {
    forall i | 0 <= i < |from|
      ensures Cloned(g0, now[dst := p], from[i].v, to[i].v)
    {
      assert Cloned(g0, now, from[i].v, to[i].v);
    }
  }

  lemma LiveUnchanged(vm: Heap, o: Obj, live: set<Obj>, g0: Graph)
    requires Kept(Snapshot(vm.objs), live, g0) && o in live
    ensures o in g0 && o.payload == g0[o]
  {
    KeysOf(vm.objs);
    InSnapshot(vm.objs);
  }

  lemma FieldIsLive(vm: Heap, src: Obj, i: nat)
    requires vm.Valid() && src in vm.Live() && src.payload.Object?
    requires i < |src.payload.slots| && src.payload.slots[i].Occupied?
    ensures ValRef(src.payload.slots[i].v) <= vm.Live()
  {
    LiveOnHeap(vm);
    InSnapshot(vm.objs);
    ReachClosed(Snapshot(vm.objs), vm.RootSet(), src);
    RefsHave(SlotRef, src.payload.slots, i);
  }

  /** `jello_object_copy`: the copy is kept if and only if no clone of a numeric box collects, which can be told
      beforehand from the fields, the bytes in use and the threshold. Then it has the fields of the source, with
      boxes of its own, and the prototype of the source. */
  method ObjectCopy(vm: Heap, src: Obj, block: nat) returns (dst: Obj, lost: bool)
    requires vm.Valid() && src in vm.Live() && src.payload.Object?
    modifies vm`gcObjects, vm`objs, vm`boxFree, vm`boxFreeLen, vm`frees, vm`disposed, vm`issued, vm`released
    modifies vm`bytesLive, vm`nextCollect, vm.Region()
    ensures vm.Valid() && vm.Live() == old(vm.Live())
    ensures Kept(Snapshot(vm.objs), old(vm.Live()), old(Snapshot(vm.objs)))
    ensures lost <==> Collects(old(Snapshot(vm.objs)), Fields(old(src.payload.slots)),
                               old(vm.InUse()) + HEADER + OBJECT, old(vm.Limit()))
    ensures lost ==> !(dst in vm.objs && dst.payload.Object?)
    ensures !lost ==>
      && dst in vm.objs && dst !in old(vm.Live()) && dst.payload.Object?
      && dst.payload.proto == old(src.payload.proto)
      && CopyOf(old(Snapshot(vm.objs)), Snapshot(vm.objs), Fields(old(src.payload.slots)), dst.payload.slots)
  {
    hide Heap.Valid, Heap.Live, Heap.RootSet, Snapshot, Kept, CopyOf, Children, Collects, Placed, CostOf, Fields, Cost;
    hide Heap.InUse, Heap.Limit, Heap.Due, Reach, Cloned, IsBox, ValRef, Closed, WithField;
    ghost var g0, live, limit, inUse := Snapshot(vm.objs), vm.Live(), vm.Limit(), vm.InUse() + HEADER + OBJECT;
    ghost var slots, due := src.payload.slots, vm.Due();
    EmptyCopy(g0, inUse, limit);
    LiveOnHeap(vm);
    InSnapshot(vm.objs);
    dst := New(vm, OBJECT, NEW_OBJECT);
    PlacedNew(due, g0, live, Snapshot(vm.objs), dst);
    NewIsLoose(vm, dst, live);
    EmptyCopyNow(g0, Snapshot(vm.objs));
    LiveUnchanged(vm, src, live, g0);
    lost := false;
    var i := 0;
    assert slots[..0] == [];
    while i < |src.payload.slots|
      invariant 0 <= i <= |slots| && src.payload == g0[src] && vm.Valid() && vm.Live() == live
      invariant Kept(Snapshot(vm.objs), live, g0)
      invariant Loose(vm, dst) && dst.payload.Object?
      invariant CopyOf(g0, Snapshot(vm.objs), Fields(slots[..i]), dst.payload.slots)
      invariant !Collects(g0, Fields(slots[..i]), inUse, limit)
      invariant vm.bytesLive == inUse + Cost(g0, Fields(slots[..i])) && vm.nextCollect == limit
      invariant fresh(vm.Region() - old(vm.Region()))
    {
      var f := src.payload.slots[i];
      FieldsNext(slots, i);
      if f.Occupied? {
        FieldIsLive(vm, src, i);
        CollectsNext(g0, Fields(slots[..i]), f, inUse, limit);
        DueNow(vm);
        lost := CopyField(vm, dst, f, block, g0, Fields(slots[..i]));
        LiveUnchanged(vm, src, live, g0);
        if lost {
          CollectsMore(g0, slots, i + 1, inUse, limit);
          return;
        }
      }
      i := i + 1;
    }
    assert slots[..i] == slots;
    SetProto(vm, dst, src, live, g0, Fields(slots));
  }

  lemma DueNow(vm: Heap)
    ensures vm.Due() <==> vm.nextCollect > 0 && vm.bytesLive >= vm.nextCollect
  {
  }

  lemma NewIsLoose(vm: Heap, dst: Obj, live: set<Obj>)
    requires dst in vm.objs && dst !in live && vm.Live() == live
    ensures Loose(vm, dst)
  {
  }

  lemma EmptyCopy(g: Graph, inUse: nat, limit: nat)
    ensures Fields([]) == [] && Cost(g, []) == 0 && !Collects(g, [], inUse, limit)
    ensures Children(NEW_OBJECT) == {}
  {
  }

  lemma EmptyCopyNow(g: Graph, now: Graph)
    ensures CopyOf(g, now, [], [])
  {
  }

  /** The prototype is shared. */
  method SetProto(vm: Heap, dst: Obj, src: Obj, ghost live: set<Obj>, ghost g0: Graph, ghost from: seq<Slot>)
    requires vm.Valid() && vm.Live() == live && Loose(vm, dst) && dst.payload.Object?
    requires src in live && src.payload.Object? && Kept(Snapshot(vm.objs), live, g0)
    requires CopyOf(g0, Snapshot(vm.objs), from, dst.payload.slots)
    modifies dst`payload, vm`issued, vm`released
    ensures vm.Valid() && vm.Live() == live && Loose(vm, dst)
    ensures dst.payload == old(dst.payload).(proto := old(src.payload.proto))
    ensures Kept(Snapshot(vm.objs), live, g0) && CopyOf(g0, Snapshot(vm.objs), from, dst.payload.slots)
  {
    hide Heap.Valid, Heap.Live, Heap.RootSet, Snapshot, Kept, CopyOf, Reach;
    ghost var now := Snapshot(vm.objs);
    LiveOnHeap(vm);
    KeysOf(vm.objs);
    InSnapshot(vm.objs);
    ChildrenOnHeap(vm, dst);
    ChildrenOnHeap(vm, src);
    WriteLoose(vm, dst, dst.payload.(proto := src.payload.proto));
    CopyWritten(g0, now, dst, dst.payload, from, dst.payload.slots);
    KeptOn(g0, live, now, live, Snapshot(vm.objs));
  }

  /** `op_obj_copy`: a null traps; a copy that was kept is stored. */
  method ObjCopy(vm: Heap, a: nat, b: nat, block: nat) returns (dst: Obj?, lost: bool)
    requires vm.Valid() && InFrame(vm, a) && InFrame(vm, b) && Reg(vm, b).Typed?
    requires Reg(vm, b).p != null ==> Reg(vm, b).p.payload.Object?
    modifies vm`gcObjects, vm`objs, vm`boxFree, vm`boxFreeLen, vm`frees, vm`disposed, vm`issued, vm`released
    modifies vm`bytesLive, vm`nextCollect, vm`frames, vm.Region()
    ensures vm.Valid() && Kept(Snapshot(vm.objs), old(vm.Live()), old(Snapshot(vm.objs)))
    ensures dst == null <==> old(Reg(vm, b)).p == null
    ensures dst == null ==> !lost && Snapshot(vm.objs) == old(Snapshot(vm.objs)) && vm.frames == old(vm.frames)
    ensures dst != null ==>
      var src := old(Reg(vm, b)).p;
      lost <==> Collects(old(Snapshot(vm.objs)), Fields(old(src.payload.slots)),
                         old(vm.InUse()) + HEADER + OBJECT, old(vm.Limit()))
    ensures dst != null && lost ==> !(dst in vm.objs && dst.payload.Object?)
    ensures dst != null && !lost ==>
      var src := old(Reg(vm, b)).p;
      var top := |old(vm.frames)| - 1;
      && dst in vm.objs && dst.payload.Object? && dst.payload.proto == old(src.payload.proto)
      && CopyOf(old(Snapshot(vm.objs)), Snapshot(vm.objs), Fields(old(src.payload.slots)), dst.payload.slots)
      && vm.frames == old(vm.frames)[top := old(vm.frames)[top][a := Typed(dst)]]
  {
    hide Heap.Valid, Heap.Live, Heap.RootSet, Snapshot, Kept, CopyOf, Collects, RegRef, Fields, Heap.InUse, Heap.Limit;
    hide Placed, Cloned, IsBox, ValRef, Heap.Due, Children, Loose;
    AllKept(vm);
    var src := Reg(vm, b).p;
    if src == null { return null, false; }
    TypedIsLive(vm, b);
    dst, lost := ObjectCopy(vm, src, block);
    if lost { return; }
    ClosureRef(vm, dst);
    StoreReg(vm, a, Typed(dst));
  }

  lemma TypedIsLive(vm: Heap, b: nat)
    requires vm.Valid() && InFrame(vm, b) && Reg(vm, b).Typed? && Reg(vm, b).p != null
    ensures Reg(vm, b).p in vm.Live()
  {
    hide Heap.Valid, Heap.Live, Heap.RootSet;
    LiveOnHeap(vm);
    RegisterIsRoot(vm, b);
    assert Reg(vm, b).p in RegRef(Reg(vm, b));
  }


  // ---- caught traps ----------------------------------------------------------------------------------------

  function BytesTotal(len: nat): nat {
    HEADER + BYTES + len
  }

  /** The field is a text of that length. */
  ghost predicate HasText(now: Graph, s: Slot, key: nat, len: nat) {
    s.Occupied? && s.key == key && s.v.Ptr? && s.v.o in now && now[s.v.o] == Bytes(len)
  }

  /** The fields of a record: a kind, perhaps a message, and a code. */
  ghost predicate IsRecord(now: Graph, slots: seq<Slot>, keys: (nat, nat, nat), kind: nat, hasMessage: bool,
                           message: nat, code: int)
  {
    && |slots| == (if hasMessage then 3 else 2)
    && HasText(now, slots[0], keys.0, kind)
    && (hasMessage ==> HasText(now, slots[1], keys.1, message))
    && slots[|slots| - 1] == Occupied(keys.2, Imm(code))
  }

  /** A text is allocated and becomes a field. If that collects, the record is gone. */
  method AddText(vm: Heap, record: Obj, key: nat, len: nat) returns (lost: bool)
    requires vm.Valid() && Loose(vm, record) && record.payload.Object?
    modifies vm`gcObjects, vm`objs, vm`boxFree, vm`boxFreeLen, vm`frees, vm`disposed, vm`issued, vm`released
    modifies vm`bytesLive, vm`nextCollect, vm.Region()
    ensures vm.Valid() && vm.Live() == old(vm.Live())
    ensures Kept(Snapshot(vm.objs), old(vm.Live()), old(Snapshot(vm.objs)))
    ensures lost == old(vm.Due())
    ensures lost ==> !(record in vm.objs && record.payload.Object?)
    ensures !lost ==>
      && Loose(vm, record) && record.payload.Object? && |record.payload.slots| == |old(record.payload.slots)| + 1
      && record.payload.slots[..|old(record.payload.slots)|] == old(record.payload.slots)
      && HasText(Snapshot(vm.objs), record.payload.slots[|old(record.payload.slots)|], key, len)
      && Kept(Snapshot(vm.objs), old(ToSet(vm.objs)) - {record}, old(Snapshot(vm.objs)))
      && vm.bytesLive == old(vm.bytesLive) + BytesTotal(len) && vm.nextCollect == old(vm.nextCollect)
    ensures fresh(vm.Region() - old(vm.Region()))
  {
    hide Heap.Valid, Heap.Live, Snapshot, Placed, Kept, Heap.InUse, Heap.Limit, Heap.Due, Children, HasText;
    ghost var g, live, p := Snapshot(vm.objs), vm.Live(), record.payload;
    KeysOf(vm.objs);
    InSnapshot(vm.objs);
    Settled(vm);
    TextIsPlain(len);
    lost := vm.Due();
    var text := New(vm, BYTES + len, Bytes(len));
    LooseAfter(vm, record, lost, g, live, text);
    InSnapshot(vm.objs);
    if lost { return; }
    PlacedKept(g, live, Snapshot(vm.objs), text);
    ghost var now := Snapshot(vm.objs);
    KeysOf(vm.objs);
    ChildrenOnHeap(vm, record);
    FieldRefs(record.payload, key, Ptr(text), 0);
    WriteLoose(vm, record, WithField(record.payload, key, Ptr(text), 0));
    KeptOn(g, live, now, live, Snapshot(vm.objs));
    TextAdded(g, now, record, record.payload, text, key, len);
  }

  lemma TextIsPlain(len: nat)
    ensures Children(Bytes(len)) == {} && Children(NEW_OBJECT) == {}
  {
  }

  lemma PlacedKept(g: Graph, live: set<Obj>, now: Graph, o: Obj)
    requires Placed(false, g, live, now, o)
    ensures Kept(now, g.Keys, g) && Kept(now, live, g)
  {
  }

  lemma TextAdded(g: Graph, now: Graph, record: Obj, p: Payload, text: Obj, key: nat, len: nat)
    requires Kept(now, g.Keys, g) && text in now && now[text] == Bytes(len) && record != text
    ensures HasText(now[record := p], Occupied(key, Ptr(text)), key, len)
    ensures Kept(now[record := p], g.Keys - {record}, g)
  {
  }

  /** `vm_wrap_catch_payload` for a trap: the record is in no root while its texts are allocated, so it is kept
      if and only if neither of them collects. */
  method CatchRecord(vm: Heap, keys: (nat, nat, nat), kind: nat, hasMessage: bool, message: nat, code: int)
    returns (record: Obj, lost: bool)
    requires vm.Valid()
    modifies vm`gcObjects, vm`objs, vm`boxFree, vm`boxFreeLen, vm`frees, vm`disposed, vm`issued, vm`released
    modifies vm`bytesLive, vm`nextCollect, vm.Region()
    ensures vm.Valid() && vm.Live() == old(vm.Live())
    ensures Kept(Snapshot(vm.objs), old(vm.Live()), old(Snapshot(vm.objs)))
    ensures var inUse := old(vm.InUse()) + HEADER + OBJECT + if hasMessage then BytesTotal(kind) else 0;
      lost <==> old(vm.Limit()) > 0 && inUse >= old(vm.Limit())
    ensures lost ==> !(record in vm.objs && record.payload.Object?)
    ensures !lost ==>
      && record in vm.objs && record.payload.Object?
      && IsRecord(Snapshot(vm.objs), record.payload.slots, keys, kind, hasMessage, message, code)
  {
    hide Heap.Valid, Heap.Live, Snapshot, Kept, Children, Placed, Heap.InUse, Heap.Limit, Heap.Due, HasText, IsRecord;
    ghost var g0, live, due := Snapshot(vm.objs), vm.Live(), vm.Due();
    TextIsPlain(0);
    record := New(vm, OBJECT, NEW_OBJECT);
    PlacedNew(due, g0, live, Snapshot(vm.objs), record);
    NewIsLoose(vm, record, live);
    DueNow(vm);
    ghost var g1 := Snapshot(vm.objs);
    lost := AddText(vm, record, keys.0, kind);
    ghost var g2 := Snapshot(vm.objs);
    KeptOn(g0, live, g1, live, g2);
    if lost { return; }
    ghost var first := record.payload.slots[0];
    KeysOf(vm.objs);
    InSnapshot(vm.objs);
    if hasMessage {
      DueNow(vm);
      lost := AddText(vm, record, keys.1, message);
      KeptOn(g0, live, g2, live, Snapshot(vm.objs));
      if lost { return; }
      TextStays(g2, Snapshot(vm.objs), record, first, keys.0, kind);
      assert record.payload.slots[..1][0] == first;
    }
    ghost var g3 := Snapshot(vm.objs);
    InSnapshot(vm.objs);
    FieldRefs(record.payload, keys.2, Imm(code), 0);
    ChildrenOnHeap(vm, record);
    WriteLoose(vm, record, WithField(record.payload, keys.2, Imm(code), 0));
    KeptOn(g0, live, g3, live, Snapshot(vm.objs));
    WrittenBeside(g3, record, record.payload);
    TextStays(g3, Snapshot(vm.objs), record, first, keys.0, kind);
    if hasMessage { TextStays(g3, Snapshot(vm.objs), record, record.payload.slots[1], keys.1, message); }
    RecordDone(Snapshot(vm.objs), record.payload.slots, keys, kind, hasMessage, message, code);
  }

  lemma TextStays(g: Graph, now: Graph, record: Obj, s: Slot, key: nat, len: nat)
    requires HasText(g, s, key, len) && record in g && g[record].Object? && Kept(now, g.Keys - {record}, g)
    ensures HasText(now, s, key, len)
  {
  }

  lemma WrittenBeside(g: Graph, record: Obj, p: Payload)
    ensures Kept(g[record := p], g.Keys - {record}, g)
  {
  }

  lemma RecordDone(now: Graph, slots: seq<Slot>, keys: (nat, nat, nat), kind: nat, hasMessage: bool, message: nat,
                   code: int)
    requires |slots| == (if hasMessage then 3 else 2)
    requires HasText(now, slots[0], keys.0, kind)
    requires hasMessage ==> HasText(now, slots[1], keys.1, message)
    requires slots[|slots| - 1] == Occupied(keys.2, Imm(code))
    ensures IsRecord(now, slots, keys, kind, hasMessage, message, code)
  {
  }

  // ---- a copy that is lost ---------------------------------------------------------------------------------

  /** As many bytes as leave room for the copy, but not for the clone of the box in it. */
  const FILL: nat := FIRST_COLLECT - 2 * (HEADER + OBJECT) - (HEADER + 16) - HEADER

  /** A machine with two empty registers. */
  method Start() returns (vm: Heap)
    ensures fresh(vm) && vm.Valid() && vm.Region() == {} && vm.bytesLive == 0 && vm.nextCollect == FIRST_COLLECT
    ensures vm.frames == [[Typed(null), Typed(null)]] && vm.running
  {
    vm := new Heap();
    vm.frames, vm.running := [[Typed(null), Typed(null)]], true;
    assert RefsOf(RegRef, [Typed(null), Typed(null)][..1]) == {};
    assert RefsOf(FrameRef, vm.frames) == {};
  }

  lemma OneRef(o: Obj)
    ensures RegRef(Dynamic(Ptr(o))) == RegRef(Typed(o)) == {o}
  {
  }

  lemma FirstRegister(x: RegVal, y: RegVal, z: RegVal)
    ensures [[x, y]][0 := [[x, y]][0][0 := z]] == [[z, y]]
  {
    assert [x, y][0 := z] == [z, y];
  }

  lemma RegisterIsLive(vm: Heap, r: nat, o: Obj)
    requires vm.Valid() && InFrame(vm, r) && (Reg(vm, r) == Typed(o) || Reg(vm, r) == Dynamic(Ptr(o)))
    ensures o in vm.Live()
  {
    hide Heap.Valid, Heap.Live, Heap.RootSet;
    LiveOnHeap(vm);
    RegisterIsRoot(vm, r);
    assert o in RegRef(Reg(vm, r));
  }

  function OneField(box: Obj): Payload {
    Object(null, true, [Occupied(0, Ptr(box))], 0)
  }

  lemma OneFieldRefs(box: Obj)
    ensures Children(OneField(box)) == {box}
  {
    RefsSnoc(SlotRef, [], Occupied(0, Ptr(box)));
  }

  lemma OneFieldCollects(box: Obj, g: Graph, inUse: nat)
    requires box in g && g[box].Box? && inUse >= FIRST_COLLECT
    ensures Collects(g, Fields(OneField(box).slots), inUse, FIRST_COLLECT)
  {
    var f := Occupied(0, Ptr(box));
    assert [f][..0] == [];
    assert Fields([f]) == [f];
    assert CostOf(g, Fields([f])[0]) > 0 && Cost(g, Fields([f])[..0]) == 0;
  }

  /** A box in the first register, and then an object with the box. */
  method WithBox() returns (vm: Heap, box: Obj)
    ensures fresh(vm) && vm.Valid() && fresh(vm.Region()) && box in vm.objs && box.payload == Box(16, 7)
    ensures vm.bytesLive == HEADER + 16 && vm.nextCollect == FIRST_COLLECT
    ensures vm.frames == [[Dynamic(Ptr(box)), Typed(null)]] && vm.running
  {
    hide Heap.Valid, Heap.Live, Heap.RootSet, Snapshot, Kept, Placed, Children, Heap.InUse, Heap.Limit, RegRef;
    vm := Start();
    BoxIsPlain(16, 7);
    Settled(vm);
    box := New(vm, 16, Box(16, 7));
    OneRef(box);
    FirstRegister(Typed(null), Typed(null), Dynamic(Ptr(box)));
    StoreReg(vm, 0, Dynamic(Ptr(box)));
  }

  method WithObject() returns (vm: Heap, box: Obj, src: Obj)
    ensures fresh(vm) && vm.Valid() && fresh(vm.Region())
    ensures src in vm.Live() && src.payload == OneField(box) && box in vm.Live() && box.payload == Box(16, 7)
    ensures vm.bytesLive == 2 * HEADER + 16 + OBJECT && vm.nextCollect == FIRST_COLLECT
    ensures vm.frames == [[Typed(src), Typed(null)]] && vm.running
  {
    hide Heap.Valid, Heap.Live, Heap.RootSet, Snapshot, Kept, Placed, Children, Heap.InUse, Heap.Limit, RegRef;
    hide OneField;
    vm, box := WithBox();
    RegisterIsLive(vm, 0, box);
    Settled(vm);
    ghost var g, live := Snapshot(vm.objs), vm.Live();
    InSnapshot(vm.objs);
    OneFieldRefs(box);
    src := New(vm, OBJECT, OneField(box));
    LiveUnchanged(vm, box, live, g);
    OneRef(src);
    FirstRegister(Dynamic(Ptr(box)), Typed(null), Typed(src));
    StoreReg(vm, 0, Typed(src));
    RegisterIsLive(vm, 0, src);
    FieldOfLive(vm, box, src);
  }

  lemma FieldOfLive(vm: Heap, box: Obj, src: Obj)
    requires vm.Valid() && src in vm.Live() && src.payload == OneField(box)
    ensures box in vm.Live()
  {
    hide Heap.Valid, Heap.Live;
    FieldIsLive(vm, src, 0);
    assert box in ValRef(Ptr(box));
  }

  /** Then so many bytes that the clone of the box will find the threshold reached, and the copy not yet. */
  method Filled() returns (vm: Heap, src: Obj)
    ensures fresh(vm) && vm.Valid() && fresh(vm.Region())
    ensures vm.frames == [[Typed(src), Typed(null)]] && vm.running && src in vm.Live() && src.payload.Object?
    ensures Collects(Snapshot(vm.objs), Fields(src.payload.slots), vm.InUse() + HEADER + OBJECT, vm.Limit())
  {
    hide Heap.Valid, Heap.Live, Heap.RootSet, Snapshot, Kept, Placed, Children, Cost, Heap.InUse, Heap.Limit, Holds;
    hide Collects, Fields, RegRef;
    var box;
    vm, box, src := WithObject();
    TextIsPlain(FILL);
    Settled(vm);
    ghost var g, live := Snapshot(vm.objs), vm.Live();
    AllKept(vm);
    LiveUnchanged(vm, box, live, g);
    LiveUnchanged(vm, src, live, g);
    var filler := New(vm, FILL, Bytes(FILL));
    LiveUnchanged(vm, box, live, g);
    LiveUnchanged(vm, src, live, g);
    LiveOnHeap(vm);
    InSnapshot(vm.objs);
    Settled(vm);
    OneFieldCollects(box, Snapshot(vm.objs), FIRST_COLLECT);
  }

  /** An object with one numeric box is copied when there is just room for the new object: cloning the box
      collects, and takes the copy. */
  method CopyIsLost() returns (vm: Heap, dst: Obj?, lost: bool)
    ensures fresh(vm) && vm.Valid() && dst != null && lost && !(dst in vm.objs && dst.payload.Object?)
  {
    hide Heap.Valid, Heap.Live, Heap.RootSet, Snapshot, Kept, Placed, Children, Cost, Heap.InUse, Heap.Limit, Holds;
    hide Collects, Fields, RegRef, CopyOf;
    var src;
    vm, src := Filled();
    dst, lost := ObjCopy(vm, 1, 0, 0);
  }
}
