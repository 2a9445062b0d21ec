/** Marking: the mark stack, the root sources and the tracing of one object (src/gc.c). */
module GcMark {
  import opened GcGraph

  /** A register of a frame: a scalar, which is boxed to be stored in the heap if it is wide, a dynamic value,
      or a typed pointer. */
  datatype RegVal = Narrow(n: int) | Wide(n: int, slot: nat, box: nat) | Dynamic(v: Val) | Typed(p: Obj?)

  /** Cached enum values without fields: per type nothing yet, or one entry per tag. */
  datatype EnumCache = NoCache | Cache(slots: seq<Obj?>)

  function RegRef(r: RegVal): set<Obj> {
    match r
    case Dynamic(v) => ValRef(v)
    case Typed(p) => PtrRef(p)
    case _ => {}
  }

  function FrameRef(regs: seq<RegVal>): set<Obj> {
    RefsOf(RegRef, regs)
  }

  function CacheRef(c: EnumCache): set<Obj> {
    if c.Cache? then RefsOf(PtrRef, c.slots) else {}
  }

  /** Exactly the objects of `mk` carry the mark. */
  ghost predicate Marks(h: set<Obj>, mk: set<Obj>)
    reads h`marked
  {
    forall o :: o in h ==> (o.marked <==> o in mk)
  }

  method MarkPtr(ghost h: set<Obj>, ghost mk: set<Obj>, ms: seq<Obj>, p: Obj?) returns (ms': seq<Obj>)
    requires Marks(h, mk) && PtrRef(p) <= h
    modifies h`marked
    ensures Marks(h, mk + PtrRef(p)) && Pushed(mk, ms, PtrRef(p), ms')
  {
    hide Pushed;
    PushNothing(mk, ms);
    if p == null { return ms; }
    assert p in PtrRef(p);
    PushOne(mk, ms, p);
    if p.marked { return ms; }
    p.marked := true;
    return ms + [p];
  }

  method MarkVal(ghost h: set<Obj>, ghost mk: set<Obj>, ms: seq<Obj>, v: Val) returns (ms': seq<Obj>)
    requires Marks(h, mk) && ValRef(v) <= h
    modifies h`marked
    ensures Marks(h, mk + ValRef(v)) && Pushed(mk, ms, ValRef(v), ms')
  {
    hide Pushed;
    PushNothing(mk, ms);
    if v.Ptr? {
      ms' := MarkPtr(h, mk, ms, v.o);
    } else {
      ms' := ms;
    }
  }

  /** A loop of `mark_val` over an array of values: the spilled values, the temporary roots, and the contents
      of arrays, enums and closures. */
  method MarkVals(ghost h: set<Obj>, ghost mk: set<Obj>, ms: seq<Obj>, vs: seq<Val>) returns (ms': seq<Obj>)
    requires Marks(h, mk) && RefsOf(ValRef, vs) <= h
    modifies h`marked
    ensures Marks(h, mk + RefsOf(ValRef, vs)) && Pushed(mk, ms, RefsOf(ValRef, vs), ms')
  {
    hide Pushed, Marks, ValRef;
    ms' := ms;
    PushNothing(mk, ms);
    assert RefsOf(ValRef, vs[..0]) == {} && mk + {} == mk;
    for i := 0 to |vs|
      invariant Marks(h, mk + RefsOf(ValRef, vs[..i])) && Pushed(mk, ms, RefsOf(ValRef, vs[..i]), ms')
    {
      RefsNext(ValRef, vs, i);
      RefsHave(ValRef, vs, i);
      ghost var before, stack := RefsOf(ValRef, vs[..i]), ms';
      ms' := MarkVal(h, mk + before, ms', vs[i]);
      PushBoth(mk, ms, before, stack, ValRef(vs[i]), ms');
      assert mk + before + ValRef(vs[i]) == mk + (before + ValRef(vs[i]));
    }
    assert vs[..|vs|] == vs;
  }

  /** A loop of `mark_ptr`: the constant caches and the entries of an enum cache. */
  method MarkPtrs(ghost h: set<Obj>, ghost mk: set<Obj>, ms: seq<Obj>, xs: seq<Obj?>) returns (ms': seq<Obj>)
    requires Marks(h, mk) && RefsOf(PtrRef, xs) <= h
    modifies h`marked
    ensures Marks(h, mk + RefsOf(PtrRef, xs)) && Pushed(mk, ms, RefsOf(PtrRef, xs), ms')
  {
    hide Pushed, Marks, PtrRef;
    ms' := ms;
    PushNothing(mk, ms);
    assert RefsOf(PtrRef, xs[..0]) == {} && mk + {} == mk;
    for i := 0 to |xs|
      invariant Marks(h, mk + RefsOf(PtrRef, xs[..i])) && Pushed(mk, ms, RefsOf(PtrRef, xs[..i]), ms')
    {
      RefsNext(PtrRef, xs, i);
      RefsHave(PtrRef, xs, i);
      ghost var before, stack := RefsOf(PtrRef, xs[..i]), ms';
      ms' := MarkPtr(h, mk + before, ms', xs[i]);
      PushBoth(mk, ms, before, stack, PtrRef(xs[i]), ms');
      assert mk + before + PtrRef(xs[i]) == mk + (before + PtrRef(xs[i]));
    }
    assert xs[..|xs|] == xs;
  }

  /** The loop over the table of an object: only occupied slots count. */
  method MarkSlots(ghost h: set<Obj>, ghost mk: set<Obj>, ms: seq<Obj>, xs: seq<Slot>) returns (ms': seq<Obj>)
    requires Marks(h, mk) && RefsOf(SlotRef, xs) <= h
    modifies h`marked
    ensures Marks(h, mk + RefsOf(SlotRef, xs)) && Pushed(mk, ms, RefsOf(SlotRef, xs), ms')
  {
    hide Pushed, Marks, ValRef;
    ms' := ms;
    PushNothing(mk, ms);
    assert RefsOf(SlotRef, xs[..0]) == {} && mk + {} == mk;
    for i := 0 to |xs|
      invariant Marks(h, mk + RefsOf(SlotRef, xs[..i])) && Pushed(mk, ms, RefsOf(SlotRef, xs[..i]), ms')
    {
      RefsNext(SlotRef, xs, i);
      RefsHave(SlotRef, xs, i);
      ghost var before, stack := RefsOf(SlotRef, xs[..i]), ms';
      if xs[i].Occupied? {
        ms' := MarkVal(h, mk + before, ms', xs[i].v);
      } else {
        PushNothing(mk + before, ms');
        assert mk + before + {} == mk + before;
      }
      PushBoth(mk, ms, before, stack, SlotRef(xs[i]), ms');
      assert mk + before + SlotRef(xs[i]) == mk + (before + SlotRef(xs[i]));
    }
    assert xs[..|xs|] == xs;
  }

  /** The registers of one frame, by their types. */
  method MarkRegs(ghost h: set<Obj>, ghost mk: set<Obj>, ms: seq<Obj>, xs: seq<RegVal>) returns (ms': seq<Obj>)
    requires Marks(h, mk) && RefsOf(RegRef, xs) <= h
    modifies h`marked
    ensures Marks(h, mk + RefsOf(RegRef, xs)) && Pushed(mk, ms, RefsOf(RegRef, xs), ms')
  {
    hide Pushed, Marks, ValRef, PtrRef;
    ms' := ms;
    PushNothing(mk, ms);
    assert RefsOf(RegRef, xs[..0]) == {} && mk + {} == mk;
    for i := 0 to |xs|
      invariant Marks(h, mk + RefsOf(RegRef, xs[..i])) && Pushed(mk, ms, RefsOf(RegRef, xs[..i]), ms')
    {
      RefsNext(RegRef, xs, i);
      RefsHave(RegRef, xs, i);
      ghost var before, stack := RefsOf(RegRef, xs[..i]), ms';
      match xs[i] {
        case Dynamic(v) => ms' := MarkVal(h, mk + before, ms', v);
        case Typed(p) => ms' := MarkPtr(h, mk + before, ms', p);
        case _ =>
          PushNothing(mk + before, ms');
          assert mk + before + {} == mk + before;
      }
      PushBoth(mk, ms, before, stack, RegRef(xs[i]), ms');
      assert mk + before + RegRef(xs[i]) == mk + (before + RegRef(xs[i]));
    }
    assert xs[..|xs|] == xs;
  }

  /** `scan_typed_frames`, once a module is running. */
  method MarkFrames(ghost h: set<Obj>, ghost mk: set<Obj>, ms: seq<Obj>, xs: seq<seq<RegVal>>) returns (ms': seq<Obj>)
    requires Marks(h, mk) && RefsOf(FrameRef, xs) <= h
    modifies h`marked
    ensures Marks(h, mk + RefsOf(FrameRef, xs)) && Pushed(mk, ms, RefsOf(FrameRef, xs), ms')
  {
    hide Pushed, Marks, RegRef;
    ms' := ms;
    PushNothing(mk, ms);
    assert RefsOf(FrameRef, xs[..0]) == {} && mk + {} == mk;
    for i := 0 to |xs|
      invariant Marks(h, mk + RefsOf(FrameRef, xs[..i])) && Pushed(mk, ms, RefsOf(FrameRef, xs[..i]), ms')
    {
      RefsNext(FrameRef, xs, i);
      RefsHave(FrameRef, xs, i);
      ghost var before, stack := RefsOf(FrameRef, xs[..i]), ms';
      ms' := MarkRegs(h, mk + before, ms', xs[i]);
      PushBoth(mk, ms, before, stack, FrameRef(xs[i]), ms');
      assert mk + before + FrameRef(xs[i]) == mk + (before + FrameRef(xs[i]));
    }
    assert xs[..|xs|] == xs;
  }

  /** The caches of enum values. */
  method MarkCaches(ghost h: set<Obj>, ghost mk: set<Obj>, ms: seq<Obj>, xs: seq<EnumCache>) returns (ms': seq<Obj>)
    requires Marks(h, mk) && RefsOf(CacheRef, xs) <= h
    modifies h`marked
    ensures Marks(h, mk + RefsOf(CacheRef, xs)) && Pushed(mk, ms, RefsOf(CacheRef, xs), ms')
  {
    hide Pushed, Marks, PtrRef;
    ms' := ms;
    PushNothing(mk, ms);
    assert RefsOf(CacheRef, xs[..0]) == {} && mk + {} == mk;
    for i := 0 to |xs|
      invariant Marks(h, mk + RefsOf(CacheRef, xs[..i])) && Pushed(mk, ms, RefsOf(CacheRef, xs[..i]), ms')
    {
      RefsNext(CacheRef, xs, i);
      RefsHave(CacheRef, xs, i);
      ghost var before, stack := RefsOf(CacheRef, xs[..i]), ms';
      if xs[i].Cache? {
        ms' := MarkPtrs(h, mk + before, ms', xs[i].slots);
      } else {
        PushNothing(mk + before, ms');
        assert mk + before + {} == mk + before;
      }
      PushBoth(mk, ms, before, stack, CacheRef(xs[i]), ms');
      assert mk + before + CacheRef(xs[i]) == mk + (before + CacheRef(xs[i]));
    }
    assert xs[..|xs|] == xs;
  }

  /** `trace_object`: marks what the object refers to. */
  method TraceObject(ghost h: set<Obj>, ghost mk: set<Obj>, ms: seq<Obj>, p: Obj) returns (ms': seq<Obj>)
    requires Marks(h, mk) && Children(p.payload) <= h
    modifies h`marked
    ensures Marks(h, mk + Children(p.payload)) && Pushed(mk, ms, Children(p.payload), ms')
  {
    hide Pushed, Marks, ValRef, PtrRef, SlotRef, RefsOf;
    PushNothing(mk, ms);
    assert mk + {} == mk;
    match p.payload {
      case List(head, tail) =>
        ms' := MarkVal(h, mk, ms, head);
        ms' := AndPtr(h, mk, ms, ValRef(head), ms', tail);
      case Array(data, block) =>
        ms' := MarkVals(h, mk, ms, data);
      case Object(proto, isInline, slots, block) =>
        ms' := MarkPtr(h, mk, ms, proto);
        ghost var stack := ms';
        ms' := MarkSlots(h, mk + PtrRef(proto), ms', slots);
        PushBoth(mk, ms, PtrRef(proto), stack, RefsOf(SlotRef, slots), ms');
        assert mk + PtrRef(proto) + RefsOf(SlotRef, slots) == mk + Children(p.payload);
      case Function(index, bound, raw, caps) =>
        ms' := MarkVal(h, mk, ms, bound);
        if !raw {
          ghost var stack := ms';
          ms' := MarkVals(h, mk + ValRef(bound), ms', caps);
          PushBoth(mk, ms, ValRef(bound), stack, RefsOf(ValRef, caps), ms');
          assert mk + ValRef(bound) + RefsOf(ValRef, caps) == mk + Children(p.payload);
        } else {
          assert Children(p.payload) == ValRef(bound);
        }
      case Enum(fields) =>
        ms' := MarkVals(h, mk, ms, fields);
      case _ =>
        ms' := ms;
    }
  }

  /** One more pointer after the objects of `s`. */
  method AndPtr(ghost h: set<Obj>, ghost mk: set<Obj>, ghost ms: seq<Obj>, ghost s: set<Obj>, ms1: seq<Obj>, p: Obj?)
    returns (ms': seq<Obj>)
    requires Marks(h, mk + s) && Pushed(mk, ms, s, ms1) && PtrRef(p) <= h
    modifies h`marked
    ensures Marks(h, mk + (s + PtrRef(p))) && Pushed(mk, ms, s + PtrRef(p), ms')
  {
    hide Pushed, Marks, PtrRef;
    ms' := MarkPtr(h, mk + s, ms1, p);
    PushBoth(mk, ms, s, ms1, PtrRef(p), ms');
    assert mk + s + PtrRef(p) == mk + (s + PtrRef(p));
  }
}
