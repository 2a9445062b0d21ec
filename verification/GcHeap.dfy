/** The mark and sweep heap with its recycle list (src/gc.c). */
module GcHeap {
  import opened GcGraph
  import opened GcLists
  import opened GcMark

  const GC_BOX_FREE_MAX: nat := 8192
  const HEADER: nat := 24
  const FIRST_COLLECT: nat := 1024 * 1024

  ghost function Snapshot(s: seq<Obj>): Graph
    reads ToSet(s)`payload
  {
    map o: Obj | o in s :: o.payload
  }

  /** Refers to nothing and owns nothing: what may lie on the recycle list, or be handed out. */
  predicate Blank(p: Payload) {
    Children(p) == {} && Holds(p) == multiset{}
  }

  /** Numeric boxes, and objects whose table is part of their block. */
  predicate Recyclable(p: Payload) {
    p.Box? || (p.Object? && p.isInline)
  }

  /** What is left in a block put on the recycle list. */
  function Cleared(p: Payload): Payload {
    if p.Object? then Object(null, p.isInline, seq(|p.slots|, _ => Empty), p.block) else p
  }

  lemma ClearedIsBlank(p: Payload)
    requires Recyclable(p)
    ensures Blank(Cleared(p))
  {
    if p.Object? {
      RefsWithin(SlotRef, Cleared(p).slots, {});
    }
  }

  /** The recycle list after a sweep of the objects of `all`: as long as there is room, blocks of dead boxes and
      inline objects are put in front. */
  ghost function RecycledAfter(before: seq<Obj>, all: seq<Obj>, g: Graph, live: set<Obj>): seq<Obj> {
    if |all| == 0 then before
    else
      var n := |all| - 1;
      var list := RecycledAfter(before, all[..n], g, live);
      if all[n] !in live && all[n] in g && Recyclable(g[all[n]]) && |list| < GC_BOX_FREE_MAX then [all[n]] + list
      else list
  }

  lemma RecycledNext(before: seq<Obj>, all: seq<Obj>, g: Graph, live: set<Obj>, i: nat)
    requires i < |all|
    ensures var list := RecycledAfter(before, all[..i], g, live);
      RecycledAfter(before, all[..i + 1], g, live)
      == if all[i] !in live && all[i] in g && Recyclable(g[all[i]]) && |list| < GC_BOX_FREE_MAX then [all[i]] + list
         else list
  {
    assert all[..i + 1][..i] == all[..i];
  }

  lemma {:induction false} RecycledMembers(before: seq<Obj>, all: seq<Obj>, g: Graph, live: set<Obj>)
    ensures ToSet(RecycledAfter(before, all, g, live)) <= ToSet(before) + ToSet(all)
    decreases |all|
  {
    if |all| > 0 {
      var n := |all| - 1;
      RecycledMembers(before, all[..n], g, live);
      assert ToSet(all[..n]) <= ToSet(all);
      ToSetAppend([all[n]], RecycledAfter(before, all[..n], g, live));
    }
  }

  predicate NoFit(list: seq<Obj>, total: nat) {
    forall i :: 0 <= i < |list| ==> list[i].totalSize != total
  }

  ghost predicate IsFirstFit(list: seq<Obj>, total: nat, o: Obj) {
    exists i :: 0 <= i < |list| && list[i] == o && o.totalSize == total && NoFit(list[..i], total)
  }

  /** What the next collection waits for: twice the live bytes, or 512 KiB if there are few; but never less than
      a full recycle list above the live bytes. */
  function Threshold(live: nat): (t: nat)
    ensures t >= live + GC_BOX_FREE_MAX * 192 && t >= 2 * live
  {
    var grown := if live < 256 * 1024 then 512 * 1024 else live * 2;
    var withPool := live + GC_BOX_FREE_MAX * 192;
    if grown > withPool then grown else withPool
  }

  class Heap {
    var gcObjects: Obj?
    var boxFree: Obj?
    var boxFreeLen: nat
    var bytesLive: nat
    var nextCollect: nat

    var spill: seq<Val>
    var roots: seq<Val>
    var constFuns: seq<Obj?>
    var constBytes: seq<Obj?>
    var enumCaches: seq<EnumCache>
    var frames: seq<seq<RegVal>>
    var running: bool

    /** The two lists, the blocks given back to the system, and the ledger of what was handed out with an
        object and what of it was given back. */
    ghost var objs: seq<Obj>
    ghost var frees: seq<Obj>
    ghost var disposed: set<Obj>
    ghost var issued: multiset<Res>
    ghost var released: multiset<Res>

    /** All blocks on the two lists. */
    ghost function Region(): set<Obj>
      reads `objs, `frees
    {
      ToSet(objs) + ToSet(frees)
    }

    ghost predicate Lists()
      reads `gcObjects, `boxFree, `boxFreeLen, `objs, `frees, `disposed, ToSet(objs)`next, ToSet(frees)`next
    {
      && Linked(gcObjects, objs) && Linked(boxFree, frees)
      && NoDup(objs) && NoDup(frees) && ToSet(objs) !! ToSet(frees)
      && disposed !! ToSet(objs) && disposed !! ToSet(frees)
      && |frees| == boxFreeLen <= GC_BOX_FREE_MAX
    }

    ghost function RootSet(): set<Obj>
      reads `spill, `roots, `constFuns, `constBytes, `enumCaches, `frames, `running
    {
      RefsOf(ValRef, roots) + OtherRoots()
    }

    /** All but the temporary roots. */
    ghost function OtherRoots(): set<Obj>
      reads `spill, `constFuns, `constBytes, `enumCaches, `frames, `running
    {
      RefsOf(ValRef, spill) + RefsOf(PtrRef, constFuns) + RefsOf(PtrRef, constBytes)
      + RefsOf(CacheRef, enumCaches) + (if running then RefsOf(FrameRef, frames) else {})
    }

    ghost predicate Unmarked()
      reads `objs, ToSet(objs)`marked
    {
      forall o :: o in objs ==> !o.marked
    }

    ghost predicate FreesBlank()
      reads `frees, ToSet(frees)`payload
    {
      forall o :: o in frees ==> Blank(o.payload)
    }

    /** The heap is in order: lists and marks, no dangling reference or root, and of everything handed out
        with an object either the object still exists or it was given back, and not both. */
    ghost predicate InOrder()
      reads `gcObjects, `boxFree, `boxFreeLen, `objs, `frees, `disposed, `issued, `released
      reads `spill, `roots, `constFuns, `constBytes, `enumCaches, `frames, `running
      reads ToSet(objs)`next, ToSet(objs)`marked, ToSet(objs)`payload, ToSet(frees)`next, ToSet(frees)`payload
    {
      && Lists() && Unmarked() && FreesBlank()
      && Closed(Snapshot(objs)) && RootSet() <= ToSet(objs)
      && released + Held(objs, Snapshot(objs)) == issued
    }

    ghost predicate Valid()
      reads this, objs, frees
    {
      InOrder() && bytesLive == Sum(objs)
    }

    constructor ()
      ensures Valid() && objs == [] && frees == [] && nextCollect == 0x10_0000
      ensures issued == multiset{} && disposed == {}
    {
      gcObjects, boxFree, boxFreeLen, bytesLive := null, null, 0, 0;
      nextCollect := FIRST_COLLECT;
      spill, roots, constFuns, constBytes, enumCaches, frames, running := [], [], [], [], [], [], false;
      objs, frees, disposed, issued, released := [], [], {}, multiset{}, multiset{};
    }

    // ---- mark ----------------------------------------------------------------------------------------------

    /** The six root sources of `jello_gc_collect`, in order. */
    method MarkRoots() returns (ms: seq<Obj>)
      requires Unmarked() && RootSet() <= ToSet(objs)
      modifies ToSet(objs)`marked
      ensures Marks(ToSet(objs), RootSet()) && Pushed({}, [], RootSet(), ms)
    {
      hide Pushed, Marks, RefsOf;
      ghost var h := ToSet(objs);
      var n: seq<Obj>;
      assert Marks(h, {}) by { NoMarks(); }
      ms := MarkVals(h, {}, [], spill);
      ghost var s := RefsOf(ValRef, spill);
      assert {} + s == s;

      n := MarkVals(h, s, ms, roots);
      PushBoth({}, [], s, ms, RefsOf(ValRef, roots), n);
      s, ms := s + RefsOf(ValRef, roots), n;
      assert {} + s == s;

      n := MarkPtrs(h, s, ms, constFuns);
      PushBoth({}, [], s, ms, RefsOf(PtrRef, constFuns), n);
      s, ms := s + RefsOf(PtrRef, constFuns), n;
      assert {} + s == s;

      n := MarkPtrs(h, s, ms, constBytes);
      PushBoth({}, [], s, ms, RefsOf(PtrRef, constBytes), n);
      s, ms := s + RefsOf(PtrRef, constBytes), n;
      assert {} + s == s;

      n := MarkCaches(h, s, ms, enumCaches);
      PushBoth({}, [], s, ms, RefsOf(CacheRef, enumCaches), n);
      s, ms := s + RefsOf(CacheRef, enumCaches), n;
      assert {} + s == s;

      if running {
        n := MarkFrames(h, s, ms, frames);
        PushBoth({}, [], s, ms, RefsOf(FrameRef, frames), n);
        s, ms := s + RefsOf(FrameRef, frames), n;
      }
      assert s == RootSet();
    }

    lemma NoMarks()
      requires Unmarked()
      ensures Marks(ToSet(objs), {})
    {
    }

    /** Roots and mark loop: every object enters the stack at most once, and what is marked in the end is
        what is reachable. */
    method MarkPhase()
      requires Unmarked() && Closed(Snapshot(objs)) && RootSet() <= ToSet(objs)
      modifies ToSet(objs)`marked
      ensures Marks(ToSet(objs), Reach(Snapshot(objs), RootSet()))
    {
      hide Pushed, Marks, Tracing, Reach, RootSet, Children, Unmarked;
      ghost var h, g, rs := ToSet(objs), Snapshot(objs), RootSet();
      assert g.Keys == h;
      var ms := MarkRoots();
      TracingStarts(g, rs, ms);
      ghost var traced: set<Obj> := {};
      assert {} + ToSet(ms) == rs by { StartMarks(g, rs, ms); }
      while |ms| > 0
        invariant Marks(h, traced + ToSet(ms)) && Tracing(g, rs, traced, ms) && Snapshot(objs) == g
        decreases h - traced
      {
        var p := ms[|ms| - 1];
        ghost var before, all := ms, traced + ToSet(ms);
        TopFacts(g, rs, traced, ms);
        ms := TraceObject(h, all, ms[..|ms| - 1], p);
        TracingGoesOn(g, rs, traced, before, ms);
        assert h - (traced + {p}) < h - traced;
        traced := traced + {p};
      }
      assert ms == [] && ToSet(ms) == {};
      assert traced + {} == traced;
      TracingEnds(g, rs, traced);
    }

    // ---- sweep ---------------------------------------------------------------------------------------------

    /** In no list and not freed: the block just taken off a list. */
    ghost predicate Loose(h: Obj)
      reads `objs, `frees, `disposed
    {
      h !in ToSet(objs) && h !in ToSet(frees) && h !in disposed
    }

    /** `free`: never of a block that was freed before. */
    method FreeBlock(h: Obj)
      requires h !in disposed
      modifies `disposed
      ensures disposed == old(disposed) + {h}
      ensures old(Lists() && Loose(h)) ==> Lists()
    {
      disposed := disposed + {h};
    }

    /** `gc_box_free_push`: recycles a block while there is room, and frees it otherwise. */
    method BoxFreePush(h: Obj)
      requires Lists() && Loose(h) && FreesBlank() && Blank(h.payload)
      modifies `boxFree, `boxFreeLen, `frees, `disposed, h`next, h`marked
      ensures Lists() && FreesBlank()
      ensures if old(boxFreeLen) < GC_BOX_FREE_MAX
              then frees == [h] + old(frees) && disposed == old(disposed) && !h.marked
              else frees == old(frees) && disposed == old(disposed) + {h} && h.marked == old(h.marked)
    {
      hide Blank, Linked, NoDup;
      if boxFreeLen >= GC_BOX_FREE_MAX {
        FreeBlock(h);
        return;
      }
      ghost var before := frees;
      h.marked := false;
      h.next := boxFree;
      boxFree := h;
      boxFreeLen := boxFreeLen + 1;
      LinkedFront(before, h);
      NoDupPush(h, before);
      ToSetAppend([h], before);
      frees := [h] + before;
    }

    /** `*prev = next`: the object list without `h`. */
    method Unlink(prev: Obj?, next: Obj?, ghost kept: seq<Obj>, ghost h: Obj, ghost rest: seq<Obj>)
      requires Lists() && objs == kept + [h] + rest
      requires prev == Last(kept) && next == First(rest)
      modifies `gcObjects, `objs, PtrRef(prev)`next
      ensures Lists() && objs == kept + rest && Loose(h)
    {
      hide Linked;
      LastIn(kept, h, rest);
      assert h in ToSet(objs) && ToSet(kept + rest) <= ToSet(objs);
      gcObjects := Splice(gcObjects, prev, next, kept, h, rest);
      NoDupMid(kept, h, rest);
      objs := kept + rest;
    }

    /** `destroy_object`: gives back what the object holds. */
    method DestroyObject(o: Obj)
      modifies `released, o`payload
      ensures released == old(released) + Holds(old(o.payload))
    {
      HeldByKind(o.payload);
      hide Holds;
      match o.payload
      case Array(data, block) =>
        if |data| > 0 { released := released + multiset{Block(block)}; }
        o.payload := Array([], block);
      case Object(proto, isInline, slots, block) =>
        if !isInline {
          released := released + multiset{Block(block)};
          o.payload := Object(proto, true, [], block);
        }
      case Abstract(handle, owned) =>
        if owned { released := released + multiset{Finalizer(handle)}; }
        o.payload := Abstract(0, false);
      case _ =>
    }

    lemma InList(kept: seq<Obj>, h: Obj, rest: seq<Obj>)
      requires Lists() && objs == kept + [h] + rest
      ensures h.next == First(rest) && h !in frees && h !in disposed
      ensures Last(kept) != null ==> Last(kept) != h
    {
      LinksFrom(gcObjects, objs, |kept|);
      NoDupMid(kept, h, rest);
      assert objs[|kept|] == h && objs[|kept| + 1..] == rest && h in ToSet(objs);
    }

    /** What happens to a block that was just taken off the object list: boxes and inline objects are cleared
        and recycled, other objects destroyed and freed. */
    method Discard(h: Obj)
      requires Lists() && FreesBlank() && Loose(h)
      modifies `boxFree, `boxFreeLen, `frees, `disposed, `released, h`next, h`marked, h`payload
      ensures Lists() && FreesBlank() && released == old(released) + Holds(old(h.payload))
      ensures !old(h.marked) ==> !h.marked
      ensures if Recyclable(old(h.payload)) && old(boxFreeLen) < GC_BOX_FREE_MAX
              then frees == [h] + old(frees) && disposed == old(disposed)
              else frees == old(frees) && disposed == old(disposed) + {h}
    {
      hide Holds, Children, Recyclable, Blank, Lists, FreesBlank, Cleared;
      BoxesRecycle(h.payload);
      if h.payload.Box? || (h.payload.Object? && h.payload.isInline) {
        ClearedIsBlank(h.payload);
        OwnsNothing(h.payload);
        h.payload := Cleared(h.payload);
        BoxFreePush(h);
      } else {
        DestroyObject(h);
        FreeBlock(h);
      }
    }

    /** The sweep of one object: a marked one loses its mark, the others leave the list. */
    method SweepOne(prev: Obj?, h: Obj, ghost kept: seq<Obj>, ghost rest: seq<Obj>, ghost g: Graph)
      returns (prev': Obj?, live: nat)
      requires Lists() && FreesBlank()
      requires objs == kept + [h] + rest && prev == Last(kept)
      requires h in g && h.payload == g[h] && released + Held(objs, g) == issued
      modifies `gcObjects, `objs, `boxFree, `boxFreeLen, `frees, `disposed, `released
      modifies PtrRef(prev)`next, h`next, h`marked, h`payload
      ensures Lists() && FreesBlank() && released + Held(objs, g) == issued && !h.marked
      ensures old(h.marked) ==>
        && objs == old(objs) && frees == old(frees) && disposed == old(disposed)
        && h.payload == g[h] && prev' == h && live == h.totalSize
      ensures !old(h.marked) ==>
        && objs == kept + rest && prev' == prev && live == 0
        && if Recyclable(g[h]) && old(boxFreeLen) < GC_BOX_FREE_MAX
           then frees == [h] + old(frees) && disposed == old(disposed)
           else frees == old(frees) && disposed == old(disposed) + {h}
    {
      hide Held, HoldsIn, Holds, Children, Recyclable, Blank, Lists, FreesBlank, Cleared, Linked, NoDup, First;
      InList(kept, h, rest);
      var next := h.next;
      if h.marked {
        h.marked := false;
        return h, h.totalSize;
      }
      HeldMid(kept, h, rest, g);
      Unlink(prev, next, kept, h, rest);
      OwnsWhat(g, h);
      Discard(h);
      return prev, 0;
    }

    /** Objects still to be swept: contents and marks as the mark phase left them. */
    ghost predicate Ahead(all: seq<Obj>, i: nat, g: Graph, live: set<Obj>)
      reads ToSet(all)`marked, ToSet(all)`payload
    {
      forall k :: i <= k < |all| ==>
        all[k] in g && all[k].payload == g[all[k]] && (all[k].marked <==> all[k] in live)
    }

    /** Objects that were kept: unchanged, and no longer marked. */
    ghost predicate Behind(kept: seq<Obj>, g: Graph)
      reads ToSet(kept)`marked, ToSet(kept)`payload
    {
      forall k :: 0 <= k < |kept| ==> kept[k] in g && kept[k].payload == g[kept[k]] && !kept[k].marked
    }

    /** Every object swept so far that is not live was recycled or freed. */
    ghost predicate Gone(all: seq<Obj>, i: nat, live: set<Obj>)
      reads `frees, `disposed
    {
      forall k :: 0 <= k < i && k < |all| && all[k] !in live ==> all[k] in frees || all[k] in disposed
    }

    lemma FreeCount()
      requires Lists()
      ensures |frees| == boxFreeLen
    {
    }

    /** One round of the sweep loop. */
    method SweepNext(ghost all: seq<Obj>, ghost i: nat, ghost g: Graph, ghost live: set<Obj>, ghost before: seq<Obj>,
                     prev: Obj?, h: Obj) returns (prev': Obj?, bytes: nat)
      requires i < |all| && h == all[i] && NoDup(all)
      requires Lists() && FreesBlank() && released + Held(objs, g) == issued
      requires objs == Filter(all[..i], live) + all[i..] && prev == Last(Filter(all[..i], live))
      requires Ahead(all, i, g, live) && Behind(Filter(all[..i], live), g)
      requires frees == RecycledAfter(before, all[..i], g, live) && Gone(all, i, live)
      modifies `gcObjects, `objs, `boxFree, `boxFreeLen, `frees, `disposed, `released
      modifies ToSet(all)`next, ToSet(all)`marked, ToSet(all)`payload
      ensures Lists() && FreesBlank() && released + Held(objs, g) == issued
      ensures objs == Filter(all[..i + 1], live) + all[i + 1..] && prev' == Last(Filter(all[..i + 1], live))
      ensures Ahead(all, i + 1, g, live) && Behind(Filter(all[..i + 1], live), g)
      ensures frees == RecycledAfter(before, all[..i + 1], g, live) && Gone(all, i + 1, live)
      ensures Sum(Filter(all[..i + 1], live)) == Sum(Filter(all[..i], live)) + bytes
    {
      hide Held, Lists, FreesBlank, Sum, Filter, Recyclable, NoDup, ToSet, RecycledAfter;
      ghost var kept, rest := Filter(all[..i], live), all[i + 1..];
      assert all[i..] == [h] + rest;
      assert objs == kept + [h] + rest;
      FilterNext(all, live, i);
      RecycledNext(before, all, g, live, i);
      FreeCount();
      Apart(all, i, live, prev);
      prev', bytes := SweepOne(prev, h, kept, rest, g);
      SumSnoc(kept, h);
      assert h in live ==> objs == kept + [h] + rest == (kept + [h]) + rest;
    }

    /** The sweep loop: of the list exactly the marked objects stay, in order, unchanged and unmarked; every
        other block is recycled or freed. */
    method Sweep(ghost g: Graph, ghost live: set<Obj>) returns (liveBytes: nat)
      requires Lists() && FreesBlank() && Marks(ToSet(objs), live)
      requires g == Snapshot(objs) && released + Held(objs, g) == issued
      modifies `gcObjects, `objs, `boxFree, `boxFreeLen, `frees, `disposed, `released
      modifies ToSet(objs)`next, ToSet(objs)`marked, ToSet(objs)`payload
      ensures Lists() && FreesBlank() && released + Held(objs, g) == issued
      ensures objs == Filter(old(objs), live) && liveBytes == Sum(objs)
      ensures Behind(objs, g)
      ensures frees == RecycledAfter(old(frees), old(objs), g, live) && Gone(old(objs), |old(objs)|, live)
    {
      hide Held, Lists, FreesBlank, Sum, Filter, Recyclable, NoDup, Ahead, Behind, Gone, RecycledAfter, ToSet, Last;
      hide Marks, Snapshot;
      ghost var all, before := objs, frees;
      ghost var i := 0;
      var prev: Obj? := null;
      var h := gcObjects;
      liveBytes := 0;
      SweepStarts(g, live);
      while h != null
        invariant i <= |all| && h == First(all[i..]) && NoDup(all)
        invariant objs == Filter(all[..i], live) + all[i..] && prev == Last(Filter(all[..i], live))
        invariant liveBytes == Sum(Filter(all[..i], live))
        invariant Lists() && FreesBlank() && released + Held(objs, g) == issued
        invariant Ahead(all, i, g, live) && Behind(Filter(all[..i], live), g)
        invariant frees == RecycledAfter(before, all[..i], g, live) && Gone(all, i, live)
        decreases |all| - i
      {
        assert h == all[i];
        NextInList(Filter(all[..i], live), all, i);
        var next := h.next;
        var bytes;
        prev, bytes := SweepNext(all, i, g, live, before, prev, h);
        liveBytes := liveBytes + bytes;
        i := i + 1;
        h := next;
      }
      assert all[..i] == all && Filter(all, live) + all[i..] == Filter(all, live);
    }

    lemma SweepStarts(g: Graph, live: set<Obj>)
      requires Lists() && Marks(ToSet(objs), live) && g == Snapshot(objs)
      ensures gcObjects == First(objs[0..]) && NoDup(objs)
      ensures objs == Filter(objs[..0], live) + objs[0..] && null == Last(Filter(objs[..0], live))
      ensures Sum(Filter(objs[..0], live)) == 0
      ensures Ahead(objs, 0, g, live) && Behind(Filter(objs[..0], live), g)
      ensures frees == RecycledAfter(frees, objs[..0], g, live) && Gone(objs, 0, live)
    {
      hide Linked, NoDup, Snapshot;
      NoneKept(objs, live);
      assert Filter(objs[..0], live) + objs[0..] == objs && frees[0..] == frees;
      FirstOfList();
      assert g == Snapshot(objs) && forall o :: o in objs ==> o in ToSet(objs);
      InSnapshot(objs);
    }

    lemma FirstOfList()
      requires Lists()
      ensures gcObjects == First(objs) && NoDup(objs)
    {
    }

    lemma NextInList(kept: seq<Obj>, all: seq<Obj>, i: nat)
      requires Lists() && i < |all| && objs == kept + all[i..]
      ensures all[i].next == First(all[i + 1..])
    {
      LinksFrom(gcObjects, objs, |kept|);
      assert objs[|kept|] == all[i] && objs[|kept| + 1..] == all[i + 1..];
    }

    // ---- collect -------------------------------------------------------------------------------------------

    /** What the roots reach. */
    ghost function Live(): set<Obj>
      reads `objs, ToSet(objs)`payload, `spill, `roots, `constFuns, `constBytes, `enumCaches, `frames, `running
    {
      Reach(Snapshot(objs), RootSet())
    }

    method MarkAndSweep() returns (liveBytes: nat)
      requires InOrder()
      modifies `gcObjects, `objs, `boxFree, `boxFreeLen, `frees, `disposed, `released
      modifies ToSet(objs)`next, ToSet(objs)`marked, ToSet(objs)`payload
      ensures InOrder() && liveBytes == Sum(objs)
      ensures objs == Filter(old(objs), old(Live())) && ToSet(objs) == old(Live())
      ensures Behind(objs, old(Snapshot(objs)))
      ensures frees == RecycledAfter(old(frees), old(objs), old(Snapshot(objs)), old(Live()))
      ensures Gone(old(objs), |old(objs)|, old(Live()))
    {
      hide Held, Linked, Blank, Sum, Filter, Recyclable, NoDup, Ahead, Gone, RecycledAfter, Marks, Reach, Closed;
      hide RootSet, Unmarked;
      ghost var all, g, live := objs, Snapshot(objs), Live();
      MarkPhase();
      liveBytes := Sweep(g, live);
      assert forall o :: o in objs ==> o in g && o.payload == g[o];
      SurvivorsClosed(all, g, RootSet(), live, objs);
      HeldSame(objs, g, Snapshot(objs));
      NoneMarked(g);
    }

    /** `jello_gc_collect`: the objects left on the list are exactly those reachable from the roots, in the
        old order, unchanged and unmarked; the blocks of the others are recycled or freed; and the next
        collection is at least a full recycle list away. */
    method Collect()
      requires Valid()
      modifies `gcObjects, `objs, `boxFree, `boxFreeLen, `frees, `disposed, `released, `bytesLive, `nextCollect
      modifies ToSet(objs)`next, ToSet(objs)`marked, ToSet(objs)`payload
      ensures Valid()
      ensures objs == Filter(old(objs), old(Live())) && ToSet(objs) == old(Live())
      ensures Behind(objs, old(Snapshot(objs)))
      ensures frees == RecycledAfter(old(frees), old(objs), old(Snapshot(objs)), old(Live()))
      ensures Gone(old(objs), |old(objs)|, old(Live()))
      ensures nextCollect == Threshold(bytesLive) >= bytesLive + GC_BOX_FREE_MAX * 192
    {
      hide Held, Lists, FreesBlank, Sum, Filter, NoDup, Gone, RecycledAfter, Reach, Closed, RootSet, Unmarked, Behind;
      hide Snapshot, ToSet;
      var liveBytes := MarkAndSweep();
      bytesLive := liveBytes;
      var grown := if liveBytes < 256 * 1024 then 512 * 1024 else liveBytes * 2;
      var withPool := liveBytes + GC_BOX_FREE_MAX * 192;
      nextCollect := if grown > withPool then grown else withPool;
    }

    lemma NoneMarked(g: Graph)
      requires Behind(objs, g)
      ensures Unmarked()
    {
    }

    // ---- allocate ------------------------------------------------------------------------------------------

    /** `gc_box_free_pop`: takes the first recycled block of exactly that size off the list. */
    method BoxFreePop(total: nat) returns (h: Obj?)
      requires Lists() && FreesBlank()
      modifies `boxFree, `boxFreeLen, `frees, ToSet(frees)`next
      ensures Lists() && FreesBlank()
      ensures ToSet(frees) <= ToSet(old(frees))
      ensures h == null ==> frees == old(frees) && forall i :: 0 <= i < |frees| ==> frees[i].totalSize != total
      ensures h != null ==>
        && h.totalSize == total && Loose(h) && Blank(h.payload) && h in old(frees)
        && exists i :: 0 <= i < |old(frees)| && old(frees)[i] == h && frees == old(frees)[..i] + old(frees)[i + 1..]
             && NoFit(old(frees)[..i], total)
    {
      hide Blank, Linked, NoDup;
      ghost var i := 0;
      var prev: Obj? := null;
      var cur := boxFree;
      assert frees[..0] == [] && frees[0..] == frees;
      FreesLink(0);
      while cur != null
        invariant i <= |frees| && cur == First(frees[i..]) && prev == Last(frees[..i])
        invariant Lists() && FreesBlank() && frees == old(frees)
        invariant forall j :: 0 <= j < i ==> frees[j].totalSize != total
        decreases |frees| - i
      {
        FreesLink(i);
        if cur.totalSize == total {
          UnlinkFree(prev, cur, i);
          return cur;
        }
        prev := cur;
        cur := cur.next;
        i := i + 1;
      }
      return null;
    }

    /** The links of the recycle list. */
    lemma FreesLink(i: nat)
      requires Lists() && i <= |frees|
      ensures i == 0 ==> boxFree == First(frees)
      ensures i < |frees| ==> frees[i..][0] == frees[i] && frees[i].next == First(frees[i + 1..])
      ensures i < |frees| ==> frees[..i + 1] != [] && Last(frees[..i + 1]) == frees[i]
    {
      if i < |frees| {
        LinksFrom(boxFree, frees, i);
      }
    }

    method UnlinkFree(prev: Obj?, h: Obj, ghost i: nat)
      requires Lists() && FreesBlank() && i < |frees| && h == frees[i]
      requires prev == Last(frees[..i]) && h.next == First(frees[i + 1..])
      modifies `boxFree, `boxFreeLen, `frees, PtrRef(prev)`next
      ensures Lists() && FreesBlank() && Loose(h) && Blank(h.payload)
      ensures frees == old(frees)[..i] + old(frees)[i + 1..]
    {
      hide Blank;
      hide Linked;
      ghost var kept, rest := frees[..i], frees[i + 1..];
      assert frees == kept + [h] + rest;
      LastIn(kept, h, rest);
      assert h in ToSet(frees) && ToSet(kept + rest) <= ToSet(frees);
      boxFree := Splice(boxFree, prev, h.next, kept, h, rest);
      NoDupMid(kept, h, rest);
      boxFreeLen := boxFreeLen - 1;
      frees := kept + rest;
    }

    method LinkFront(h: Obj)
      requires Lists() && Loose(h)
      modifies `gcObjects, `objs, h`next
      ensures Lists() && objs == [h] + old(objs)
    {
      hide Linked, NoDup;
      ghost var before := objs;
      h.next := gcObjects;
      gcObjects := h;
      LinkedFront(before, h);
      NoDupPush(h, before);
      ToSetAppend([h], before);
      objs := [h] + before;
    }

    /** Puts a loose block that refers to nothing in front of the object list. */
    method PushFront(h: Obj)
      requires InOrder() && Loose(h) && Blank(h.payload)
      modifies `gcObjects, `objs, h`next, h`marked
      ensures InOrder() && objs == [h] + old(objs)
    {
      hide Lists, Closed, Held, Blank, RootSet, FreesBlank, Snapshot;
      ghost var before := objs;
      FrontKeeps(before, h);
      LinkFront(h);
      h.marked := false;
      assert Unmarked();
      ToSetAppend([h], before);
    }

    /** A recycled block of the size, or a new one. */
    method TakeBlock(total: nat) returns (o: Obj, recycled: bool)
      requires InOrder()
      modifies `boxFree, `boxFreeLen, `frees, ToSet(frees)`next
      ensures InOrder() && Loose(o) && Blank(o.payload) && o.totalSize == total
      ensures recycled ==> o in ToSet(old(frees))
      ensures !recycled ==> fresh(o)
      ensures ToSet(frees) <= ToSet(old(frees))
      ensures if NoFit(old(frees), total) then !recycled else recycled && IsFirstFit(old(frees), total, o)
    {
      hide Lists, FreesBlank, Snapshot, Unmarked, Closed, Held, Blank, RootSet;
      var h := BoxFreePop(total);
      if h != null { return h, true; }
      o := new Obj(total);
      NewIsBlank();
      return o, false;
    }

    lemma StillBehind()
      requires Valid()
      ensures Behind(objs, Snapshot(objs))
    {
    }

    /** Will the next allocation collect? */
    predicate Due()
      reads `bytesLive, `nextCollect
    {
      nextCollect > 0 && bytesLive >= nextCollect
    }

    /** The bytes in use, and the threshold, once the collection that is due has taken place. */
    ghost function InUse(): nat
      reads `bytesLive, `nextCollect, `objs, ToSet(objs)`payload
      reads `spill, `roots, `constFuns, `constBytes, `enumCaches, `frames, `running
    {
      if Due() then Sum(Filter(objs, Live())) else bytesLive
    }

    ghost function Limit(): nat
      reads `bytesLive, `nextCollect, `objs, ToSet(objs)`payload
      reads `spill, `roots, `constFuns, `constBytes, `enumCaches, `frames, `running
    {
      if Due() then Threshold(InUse()) else nextCollect
    }

    /** The collection at the start of an allocation. */
    method CollectIfDue()
      requires Valid()
      modifies `gcObjects, `objs, `boxFree, `boxFreeLen, `frees, `disposed, `released, `bytesLive, `nextCollect
      modifies ToSet(objs)`next, ToSet(objs)`marked, ToSet(objs)`payload
      ensures Valid() && Behind(objs, old(Snapshot(objs))) && Region() <= old(Region())
      ensures bytesLive == old(InUse()) && nextCollect == old(Limit())
      ensures if old(Due())
              then objs == Filter(old(objs), old(Live()))
                && frees == RecycledAfter(old(frees), old(objs), old(Snapshot(objs)), old(Live()))
              else objs == old(objs) && frees == old(frees)
    {
      hide InOrder, Blank, Sum, Filter, Live, Snapshot, Behind, Lists, RecycledAfter, Gone, NoDup, Linked, RootSet;
      StillBehind();
      FilterMembers(objs, Live());
      RecycledMembers(frees, objs, Snapshot(objs), Live());
      if nextCollect != 0 && bytesLive >= nextCollect {
        Collect();
      }
    }

    /** `jello_gc_alloc_recycled`: collects first if the threshold is reached; then takes a recycled block of
        exactly the size, or a new one. Everything else on the heap is as the collection left it. */
    method AllocRecycled(size: nat) returns (o: Obj, recycled: bool)
      requires Valid()
      modifies `gcObjects, `objs, `boxFree, `boxFreeLen, `frees, `disposed, `released, `bytesLive, `nextCollect
      modifies ToSet(objs)`next, ToSet(objs)`marked, ToSet(objs)`payload, ToSet(frees)`next, ToSet(frees)`marked
      ensures Valid()
      ensures o.totalSize == HEADER + size && Blank(o.payload) && (recycled <==> !fresh(o))
      ensures !fresh(o) ==> o in old(Region())
      ensures Region() <= old(Region()) + {o}
      ensures |objs| > 0 && objs[0] == o
      ensures objs[1..] == if old(Due()) then Filter(old(objs), old(Live())) else old(objs)
      ensures bytesLive == old(InUse()) + HEADER + size && nextCollect == old(Limit())
      ensures Behind(objs[1..], old(Snapshot(objs)))
      ensures var list := if old(Due())
                          then RecycledAfter(old(frees), old(objs), old(Snapshot(objs)), old(Live())) else old(frees);
        if NoFit(list, HEADER + size) then !recycled else recycled && IsFirstFit(list, HEADER + size, o)
    {
      hide InOrder, Blank, Sum, Filter, Live, Snapshot, Behind, Lists, RecycledAfter, NoDup, Linked, RootSet;
      hide NoFit, IsFirstFit, Gone;
      var total := HEADER + size;
      CollectIfDue();
      ghost var rest := objs;
      o, recycled := TakeBlock(total);
      PushFront(o);
      ToSetAppend([o], rest);
      SumFront(rest, o);
      bytesLive := bytesLive + total;
      assert objs[1..] == rest;
    }

    // ---- contents, close, shutdown -------------------------------------------------------------------------

    /** Every write to an object: its references must be to objects on the heap; a block or finalizer it held
        and holds no longer is given back, one it newly holds is handed out. */
    method Write(o: Obj, p: Payload)
      requires Valid() && o in objs && Children(p) <= ToSet(objs)
      modifies o`payload, `issued, `released
      ensures Valid() && o.payload == p
      ensures released == old(released) + (Holds(old(o.payload)) - Holds(p))
      ensures issued == old(issued) + (Holds(p) - Holds(old(o.payload)))
    {
      hide Lists, Closed, Held, Holds, HoldsIn, Children, RootSet, FreesBlank, Snapshot, Sum, NoDup;
      ghost var all, g, was := objs, Snapshot(objs), o.payload;
      NotFree(o);
      KeysOf(all);
      InSnapshot(all);
      WriteKeeps(all, o, p, g);
      released := released + (Holds(was) - Holds(p));
      issued := issued + (Holds(p) - Holds(was));
      o.payload := p;
      Written(all, o, g);
      Balance(old(released), old(issued), Held(all, g), Held(all, g[o := p]), Holds(was), Holds(p));
    }

    lemma NotFree(o: Obj)
      requires Lists() && o in objs
      ensures o !in frees && o in ToSet(objs) && NoDup(objs) && o !in ToSet(frees)
    {
      assert o in ToSet(objs);
    }

    /** `jdl_close_abstract`: runs the finalizer if it is still set, and clears it. */
    method Close(o: Obj)
      requires Valid() && o in objs && o.payload.Abstract?
      modifies o`payload, `issued, `released
      ensures Valid() && o.payload == Abstract(0, false) && issued == old(issued)
      ensures released == old(released)
                + if old(o.payload).owned then multiset{Finalizer(old(o.payload).handle)} else multiset{}
    {
      hide Valid;
      NothingHeld(o.payload, Abstract(0, false));
      Write(o, Abstract(0, false));
    }

    /** A block or finalizer that was handed out once and given back is held by no object any more: it cannot
        be freed, or run, a second time. */
    lemma ReleasedIsGone(r: Res, o: Obj)
      requires Valid() && o in objs && issued[r] <= 1 && released[r] > 0
      ensures Holds(o.payload)[r] == 0
    {
      hide Lists, Closed, Held, RootSet, FreesBlank, Snapshot, Sum, Unmarked, Holds;
      InSnapshot(objs);
      var i :| 0 <= i < |objs| && objs[i] == o;
      HeldHas(objs, Snapshot(objs), i);
      assert issued[r] == released[r] + Held(objs, Snapshot(objs))[r];
    }

    method PushRoot(v: Val)
      requires Valid() && ValRef(v) <= ToSet(objs)
      modifies `roots
      ensures Valid() && roots == old(roots) + [v] && RootSet() == old(RootSet()) + ValRef(v)
    {
      hide Lists, Closed, Held, FreesBlank, Snapshot, Sum, Unmarked, RefsOf, ValRef, OtherRoots, ToSet;
      RefsSnoc(ValRef, roots, v);
      roots := roots + [v];
    }

    /** `jello_gc_pop_roots`: panics exactly if there are fewer than `n`. */
    method PopRoots(n: nat) returns (panics: bool)
      requires Valid()
      modifies `roots
      ensures Valid() && (panics <==> n > |old(roots)|)
      ensures roots == if panics then old(roots) else old(roots)[..|old(roots)| - n]
    {
      hide Lists, Closed, Held, FreesBlank, Snapshot, Sum, Unmarked, RefsOf, ValRef, OtherRoots, ToSet;
      if n > |roots| { return true; }
      RefsPrefix(ValRef, roots, |roots| - n);
      roots := roots[..|roots| - n];
      return false;
    }


    lemma ClearStarts()
      requires InOrder()
      ensures NoDup(objs) && disposed !! ToSet(objs)
      ensures forall k :: 0 <= k < |objs| ==> objs[k].next == After(objs, k)
      ensures gcObjects == First(objs[0..]) && objs[0..] == objs && ToSet(objs[..0]) == {}
      ensures forall k :: 0 <= k < |objs| ==> objs[k] in Snapshot(objs) && objs[k].payload == Snapshot(objs)[objs[k]]
    {
      InSnapshot(objs);
      FirstOfList();
    }

    /** The first loop of `jello_gc_shutdown`. */
    method ClearObjects()
      requires InOrder()
      modifies `gcObjects, `objs, `bytesLive, `disposed, `released, ToSet(objs)`payload
      ensures gcObjects == null && objs == [] && bytesLive == 0
      ensures released == issued && disposed == old(disposed) + ToSet(old(objs))
    {
      hide Held, Holds, HoldsIn, Closed, Children, RefsOf, Linked, FreesBlank, Unmarked;
      hide NoDup, Snapshot, Lists, ToSet, After;
      ghost var all, g := objs, Snapshot(objs);
      ClearStarts();
      var h := gcObjects;
      ghost var i := 0;
      while h != null
        invariant i <= |all| && objs == all && h == First(all[i..])
        invariant NoDup(all) && old(disposed) !! ToSet(all)
        invariant forall k :: 0 <= k < |all| ==> all[k].next == After(all, k)
        invariant forall k :: i <= k < |all| ==> all[k] in g && all[k].payload == g[all[k]]
        invariant released + Held(all[i..], g) == issued && disposed == old(disposed) + ToSet(all[..i])
        decreases |all| - i
      {
        NextToClear(all, i, g);
        var next := h.next;
        DestroyObject(h);
        FreeBlock(h);
        h := next;
        i := i + 1;
      }
      AllCleared(all, i, g);
      gcObjects := null;
      bytesLive := 0;
      objs := [];
    }

    /** `gc_box_free_clear`. */
    method ClearFrees()
      requires Linked(boxFree, frees) && NoDup(frees) && disposed !! ToSet(frees)
      modifies `boxFree, `boxFreeLen, `frees, `disposed
      ensures boxFree == null && frees == [] && boxFreeLen == 0
      ensures disposed == old(disposed) + ToSet(old(frees))
    {
      hide Linked;
      ghost var all := frees;
      var h := boxFree;
      ghost var i := 0;
      assert all[0..] == all && ToSet(all[..0]) == {};
      assert boxFree == First(frees) by { HeadIs(boxFree, frees); }
      while h != null
        invariant i <= |all| && frees == all && h == First(all[i..])
        invariant Linked(boxFree, all) && NoDup(all) && disposed == old(disposed) + ToSet(all[..i])
        decreases |all| - i
      {
        LinksFrom(boxFree, all, i);
        TakeOne(all, i);
        var next := h.next;
        FreeBlock(h);
        h := next;
        i := i + 1;
      }
      assert all[..i] == all;
      boxFree := null;
      boxFreeLen := 0;
      frees := [];
    }

    /** `jello_gc_shutdown`: every block of both lists is freed, once, and everything still held is given
        back, so that in the end all that was handed out was given back exactly once. */
    method Shutdown()
      requires Valid()
      modifies this, ToSet(objs)`payload
      ensures gcObjects == null && boxFree == null && objs == [] && frees == [] && boxFreeLen == 0 && bytesLive == 0
      ensures spill == [] && roots == []
      ensures released == issued == old(issued)
      ensures disposed == old(disposed) + ToSet(old(objs)) + ToSet(old(frees))
    {
      hide Linked, NoDup, Held, Closed, FreesBlank, Unmarked, RefsOf, Snapshot;
      NoSpill();
      spill := [];
      ClearObjects();
      ClearFrees();
      roots := [];
    }

    lemma NoSpill()
      ensures RefsOf(ValRef, []) == {}
    {
    }
  }

  lemma HeadIs(head: Obj?, s: seq<Obj>)
    requires Linked(head, s)
    ensures head == First(s)
  {
  }

  lemma TakeOne(all: seq<Obj>, i: nat)
    requires i < |all| && NoDup(all)
    ensures First(all[i..]) == all[i] && ToSet(all[..i + 1]) == ToSet(all[..i]) + {all[i]}
    ensures all[i] !in ToSet(all[..i]) && all[i] in ToSet(all)
  {
    assert all[..i + 1] == all[..i] + [all[i]];
    ToSetAppend(all[..i], [all[i]]);
  }

  lemma NextToClear(all: seq<Obj>, i: nat, g: Graph)
    requires i < |all| && NoDup(all) && all[i] in g
    ensures First(all[i..]) == all[i] && ToSet(all[..i + 1]) == ToSet(all[..i]) + {all[i]}
    ensures all[i] !in ToSet(all[..i]) && all[i] in ToSet(all)
    ensures forall k :: i < k < |all| ==> all[k] != all[i]
    ensures Held(all[i..], g) == Held(all[i + 1..], g) + Holds(g[all[i]])
    ensures After(all, i) == First(all[i + 1..])
  {
    TakeOne(all, i);
    var rest := all[i + 1..];
    assert [] + [all[i]] + rest == all[i..] && [] + rest == rest;
    HeldMid([], all[i], rest, g);
  }

  lemma AllCleared(all: seq<Obj>, i: nat, g: Graph)
    requires i <= |all| && First(all[i..]) == null
    ensures all[..i] == all && Held(all[i..], g) == multiset{}
  {
  }

  /** Two accounts that balance before a write balance after it. */
  lemma Balance(r: multiset<Res>, i: multiset<Res>, held: multiset<Res>, held': multiset<Res>,
                was: multiset<Res>, now: multiset<Res>)
    requires r + held == i && held' + was == held + now
    ensures (r + (was - now)) + held' == i + (now - was)
  {
    forall x: Res
      ensures ((r + (was - now)) + held')[x] == (i + (now - was))[x]
    {
      assert (r + held)[x] == i[x] && (held' + was)[x] == (held + now)[x];
    }
  }

  lemma WriteKeeps(all: seq<Obj>, o: Obj, p: Payload, g: Graph)
    requires NoDup(all) && o in all && g == Snapshot(all) && Closed(g) && Children(p) <= ToSet(all)
    ensures Closed(g[o := p]) && o in g && g[o] == o.payload
    ensures Held(all, g[o := p]) + Holds(g[o]) == Held(all, g) + Holds(p)
  {
    KeysOf(all);
    InSnapshot(all);
    hide Snapshot, Children, Holds, Held, NoDup;
    WriteHeld(all, o, p, g);
  }

  lemma WriteHeld(all: seq<Obj>, o: Obj, p: Payload, g: Graph)
    requires NoDup(all) && o in all && o in g
    ensures Held(all, g[o := p]) + Holds(g[o]) == Held(all, g) + Holds(p)
  {
    hide Holds, Held, NoDup;
    var i :| 0 <= i < |all| && all[i] == o;
    var a, b, g' := all[..i], all[i + 1..], g[o := p];
    assert all == a + [o] + b;
    NoDupMid(a, o, b);
    HeldMid(a, o, b, g);
    HeldMid(a, o, b, g');
    HeldSame(a + b, g, g');
    var x, y, z := Held(a + b, g), Holds(g[o]), Holds(p);
    assert (x + z) + y == (x + y) + z;
  }

  lemma Written(all: seq<Obj>, o: Obj, g: Graph)
    requires g.Keys == ToSet(all) && o in all
    requires forall x :: x in all && x != o ==> g[x] == x.payload
    ensures Snapshot(all) == g[o := o.payload]
  {
  }

  lemma NothingHeld(p: Payload, q: Payload)
    requires p.Abstract? && q == Abstract(0, false)
    ensures Holds(p) - Holds(q) == if p.owned then multiset{Finalizer(p.handle)} else multiset{}
    ensures Holds(q) - Holds(p) == multiset{} && Children(q) == {}
  {
  }

  lemma {:induction false} RefsPrefix<T>(f: T -> set<Obj>, s: seq<T>, n: nat)
    requires n <= |s|
    ensures RefsOf(f, s[..n]) <= RefsOf(f, s)
    decreases |s|
  {
    if n < |s| {
      RefsPrefix(f, s[..|s| - 1], n);
      assert s[..|s| - 1][..n] == s[..n];
    } else {
      assert s[..n] == s;
    }
  }

  lemma LinkedFront(before: seq<Obj>, h: Obj)
    requires Linked(h.next, before)
    ensures Linked(h, [h] + before)
  {
    var s := [h] + before;
    forall i | 0 <= i < |s|
      ensures s[i].next == After(s, i)
    {
      if i > 0 {
        assert s[i] == before[i - 1] && After(s, i) == After(before, i - 1);
      }
    }
  }

  /** A block that refers to nothing and holds nothing changes no account. */
  lemma FrontKeeps(before: seq<Obj>, h: Obj)
    requires Closed(Snapshot(before)) && h !in ToSet(before) && Blank(h.payload)
    ensures Closed(Snapshot([h] + before))
    ensures Held([h] + before, Snapshot([h] + before)) == Held(before, Snapshot(before))
  {
    SnapshotFront(before, h);
    ClosedFront(Snapshot(before), h, h.payload);
    HeldFront(before, Snapshot(before), h, h.payload);
  }

  lemma ClosedFront(g: Graph, h: Obj, p: Payload)
    requires Closed(g) && h !in g && Children(p) == {}
    ensures Closed(g[h := p])
  {
    hide Children;
  }

  lemma HeldFront(before: seq<Obj>, g: Graph, h: Obj, p: Payload)
    requires h !in before && Holds(p) == multiset{}
    ensures Held([h] + before, g[h := p]) == Held(before, g)
  {
    var g' := g[h := p];
    assert [] + [h] + before == [h] + before && [] + before == before;
    HeldMid([], h, before, g');
    HeldSame(before, g, g');
  }

  lemma KeysOf(all: seq<Obj>)
    ensures Snapshot(all).Keys == ToSet(all)
  {
  }

  lemma SnapshotFront(before: seq<Obj>, h: Obj)
    requires h !in ToSet(before)
    ensures Snapshot([h] + before) == Snapshot(before)[h := h.payload]
    ensures h !in Snapshot(before) && h !in before
  {
  }

  lemma SumFront(s: seq<Obj>, o: Obj)
    ensures Sum([o] + s) == Sum(s) + o.totalSize
  {
    SumMid([], o, s);
    assert [] + [o] + s == [o] + s && [] + s == s;
  }

  lemma NewIsBlank()
    ensures Blank(Uninit)
  {
  }

  lemma HeldByKind(p: Payload)
    ensures p.Array? ==> Holds(p) == if |p.data| > 0 then multiset{Block(p.block)} else multiset{}
    ensures p.Object? ==> Holds(p) == if p.isInline then multiset{} else multiset{Block(p.block)}
    ensures p.Abstract? ==> Holds(p) == if p.owned then multiset{Finalizer(p.handle)} else multiset{}
    ensures !p.Array? && !p.Object? && !p.Abstract? ==> Holds(p) == multiset{}
  {
  }

  lemma BoxesRecycle(p: Payload)
    ensures Recyclable(p) <==> p.Box? || (p.Object? && p.isInline)
  {
  }

  lemma OwnsNothing(p: Payload)
    requires Recyclable(p)
    ensures Holds(p) == multiset{}
  {
  }

  lemma OwnsWhat(g: Graph, h: Obj)
    requires h in g
    ensures HoldsIn(g, h) == Holds(g[h])
  {
  }

  lemma NoneKept(all: seq<Obj>, live: set<Obj>)
    ensures all[..0] == [] && all[0..] == all && Filter(all[..0], live) == []
    ensures Last(Filter(all[..0], live)) == null && Sum(Filter(all[..0], live)) == 0
  {
  }

  lemma InSnapshot(all: seq<Obj>)
    ensures forall o :: o in all ==> o in Snapshot(all) && Snapshot(all)[o] == o.payload
  {
  }

  /** The object being swept is none of those before or behind it. */
  lemma Apart(all: seq<Obj>, i: nat, live: set<Obj>, prev: Obj?)
    requires NoDup(all) && i < |all| && prev == Last(Filter(all[..i], live))
    ensures all[i] !in Filter(all[..i], live) && all[i] in ToSet(all)
    ensures prev != null ==> prev in ToSet(all)
    ensures forall k :: 0 <= k < |all| && k != i ==> all[k] != all[i]
  {
    FilterMembers(all[..i], live);
    var kept := Filter(all[..i], live);
    assert forall o :: o in kept ==> o in ToSet(kept);
    assert forall k :: 0 <= k < i ==> all[..i][k] == all[k];
    assert forall o :: o in ToSet(all[..i]) ==> o in ToSet(all);
    assert prev != null ==> prev in kept;
  }

  /** What survives a collection refers to nothing but survivors. */
  lemma SurvivorsClosed(all: seq<Obj>, g: Graph, rs: set<Obj>, live: set<Obj>, left: seq<Obj>)
    requires g.Keys == ToSet(all) && Closed(g) && rs <= g.Keys && live == Reach(g, rs) && left == Filter(all, live)
    requires forall o :: o in left ==> o in g && o.payload == g[o]
    ensures Closed(Snapshot(left)) && rs <= ToSet(left) == live
    ensures forall o :: o in left ==> HoldsIn(g, o) == HoldsIn(Snapshot(left), o)
  {
    FilterMembers(all, live);
    RootsReached(g, rs);
    forall o | o in left
      ensures o in live && Children(o.payload) <= live
    {
      assert o in ToSet(left);
      ReachClosed(g, rs, o);
    }
  }

  lemma StartMarks(g: Graph, rs: set<Obj>, ms: seq<Obj>)
    requires Pushed({}, [], rs, ms)
    ensures {} + ToSet(ms) == rs
  {
    assert ms[0..] == ms;
  }

  lemma TopFacts(g: Graph, rs: set<Obj>, traced: set<Obj>, ms: seq<Obj>)
    requires Tracing(g, rs, traced, ms) && |ms| > 0 && Closed(g)
    ensures var p := ms[|ms| - 1];
      p in g && p !in traced && Children(g[p]) <= g.Keys
  {
    assert ms[|ms| - 1] in ToSet(ms);
  }
}
