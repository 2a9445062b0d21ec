/** Heap objects, the references between them, and reachability (src/gc.c, src/include/jello.h). */
module GcGraph {

  /** A tagged value: null, an immediate, or a pointer. */
  datatype Val = Nil | Imm(n: int) | Ptr(o: Obj?)

  datatype Slot = Empty | Tomb | Occupied(key: nat, v: Val)

  /** The contents of an object, by kind. `size` tells the kinds of numeric boxes apart; `block` numbers a
      separately allocated table or data area, `handle` what an abstract object stands for, with `owned` while
      its finalizer is set. */
  datatype Payload =
    | Uninit
    | Bytes(len: nat)
    | Box(size: nat, bits: int)
    | List(head: Val, tail: Obj?)
    | Array(data: seq<Val>, block: nat)
    | Object(proto: Obj?, isInline: bool, slots: seq<Slot>, block: nat)
    | Function(index: nat, bound: Val, raw: bool, caps: seq<Val>)
    | Enum(fields: seq<Val>)
    | Abstract(handle: nat, owned: bool)

  /** A block of the heap with its header. */
  class Obj {
    const totalSize: nat
    var next: Obj?
    var marked: bool
    var payload: Payload

    constructor (totalSize: nat)
      ensures this.totalSize == totalSize && !marked && payload == Uninit && next == null
    {
      this.totalSize := totalSize;
      next, marked, payload := null, false, Uninit;
    }
  }

  // ---- references ------------------------------------------------------------------------------------------

  function ToSet(s: seq<Obj>): set<Obj> {
    set o | o in s
  }

  function PtrRef(p: Obj?): set<Obj> {
    if p == null then {} else {p}
  }

  function ValRef(v: Val): set<Obj> {
    if v.Ptr? then PtrRef(v.o) else {}
  }

  function SlotRef(s: Slot): set<Obj> {
    if s.Occupied? then ValRef(s.v) else {}
  }

  function RefsOf<T>(f: T -> set<Obj>, s: seq<T>): set<Obj> {
    if |s| == 0 then {} else RefsOf(f, s[..|s| - 1]) + f(s[|s| - 1])
  }

  /** What `trace_object` follows. */
  function Children(p: Payload): set<Obj> {
    match p
    case List(head, tail) => ValRef(head) + PtrRef(tail)
    case Array(data, block) => RefsOf(ValRef, data)
    case Object(proto, isInline, slots, block) => PtrRef(proto) + RefsOf(SlotRef, slots)
    case Function(index, bound, raw, caps) => ValRef(bound) + if raw then {} else RefsOf(ValRef, caps)
    case Enum(fields) => RefsOf(ValRef, fields)
    case _ => {}
  }

  lemma RefsNext<T>(f: T -> set<Obj>, s: seq<T>, i: nat)
    requires i < |s|
    ensures RefsOf(f, s[..i + 1]) == RefsOf(f, s[..i]) + f(s[i])
  {
    assert s[..i + 1][..i] == s[..i];
  }

  lemma RefsSnoc<T>(f: T -> set<Obj>, s: seq<T>, x: T)
    ensures RefsOf(f, s + [x]) == RefsOf(f, s) + f(x)
  {
    assert (s + [x])[..|s|] == s;
  }

  lemma {:induction false} RefsHave<T>(f: T -> set<Obj>, s: seq<T>, i: nat)
    requires i < |s|
    ensures f(s[i]) <= RefsOf(f, s)
    decreases |s|
  {
    if i < |s| - 1 {
      RefsHave(f, s[..|s| - 1], i);
    }
  }

  lemma {:induction false} RefsWithin<T>(f: T -> set<Obj>, s: seq<T>, all: set<Obj>)
    requires forall i :: 0 <= i < |s| ==> f(s[i]) <= all
    ensures RefsOf(f, s) <= all
    decreases |s|
  {
    if |s| > 0 {
      RefsWithin(f, s[..|s| - 1], all);
    }
  }

  // ---- reachability ----------------------------------------------------------------------------------------

  type Graph = map<Obj, Payload>

  /** No reference leaves the heap. */
  ghost predicate Closed(g: Graph) {
    forall o :: o in g ==> Children(g[o]) <= g.Keys
  }

  /** What can be reached from the roots in at most `n` steps. */
  ghost function ReachIn(g: Graph, roots: set<Obj>, n: nat): set<Obj> {
    if n == 0 then roots * g.Keys
    else
      var before := ReachIn(g, roots, n - 1);
      before + (set o, c | o in before && o in g && c in Children(g[o]) && c in g :: c)
  }

  ghost predicate Reachable(g: Graph, roots: set<Obj>, o: Obj) {
    exists n: nat :: o in ReachIn(g, roots, n)
  }

  ghost function Reach(g: Graph, roots: set<Obj>): set<Obj> {
    set o | o in g.Keys && Reachable(g, roots, o)
  }

  lemma {:induction false} ReachInHeap(g: Graph, roots: set<Obj>, n: nat)
    ensures ReachIn(g, roots, n) <= g.Keys
    decreases n
  {
    if n > 0 {
      ReachInHeap(g, roots, n - 1);
    }
  }

  /** Reachability is closed under references, and contains the roots. */
  lemma ReachClosed(g: Graph, roots: set<Obj>, o: Obj)
    requires Closed(g) && o in Reach(g, roots)
    ensures Children(g[o]) <= Reach(g, roots)
  {
    var n: nat :| o in ReachIn(g, roots, n);
    forall c | c in Children(g[o])
      ensures c in Reach(g, roots)
    {
      assert c in ReachIn(g, roots, n + 1);
    }
  }

  lemma RootsReached(g: Graph, roots: set<Obj>)
    requires roots <= g.Keys
    ensures roots <= Reach(g, roots)
  {
    forall o | o in roots
      ensures o in Reach(g, roots)
    {
      assert o in ReachIn(g, roots, 0);
    }
  }

  /** Any set with the roots that is closed under references contains what is reachable. */
  lemma {:induction false} ReachInLeast(g: Graph, roots: set<Obj>, s: set<Obj>, n: nat)
    requires roots * g.Keys <= s
    requires forall o :: o in s && o in g ==> Children(g[o]) * g.Keys <= s
    ensures ReachIn(g, roots, n) <= s
    decreases n
  {
    if n > 0 {
      ReachInLeast(g, roots, s, n - 1);
    }
  }

  lemma ReachLeast(g: Graph, roots: set<Obj>, s: set<Obj>)
    requires roots * g.Keys <= s
    requires forall o :: o in s && o in g ==> Children(g[o]) * g.Keys <= s
    ensures Reach(g, roots) <= s
  {
    forall o | o in Reach(g, roots)
      ensures o in s
    {
      var n: nat :| o in ReachIn(g, roots, n);
      ReachInLeast(g, roots, s, n);
    }
  }

  /** What was reachable stays reachable if none of it changed and no root was dropped. */
  lemma ReachGrows(g: Graph, roots: set<Obj>, g': Graph, roots': set<Obj>)
    requires Closed(g) && Closed(g') && roots <= g.Keys && roots <= roots' <= g'.Keys
    requires forall o :: o in Reach(g, roots) ==> o in g' && g'[o] == g[o]
    ensures Reach(g, roots) <= Reach(g', roots')
  {
    RootsReached(g, roots);
    RootsReached(g', roots');
    var s := Reach(g, roots) * Reach(g', roots');
    forall o | o in s
      ensures Children(g[o]) <= s
    {
      ReachClosed(g, roots, o);
      ReachClosed(g', roots', o);
    }
    ReachLeast(g, roots, s);
  }

  // ---- the mark stack --------------------------------------------------------------------------------------

  ghost predicate NoDup(s: seq<Obj>) {
    forall i, j :: 0 <= i < j < |s| ==> s[i] != s[j]
  }

  /** From marks `mk` and stack `ms`, marking the objects of `s` leads to stack `ms'`: every object of `s`
      that was not marked before is pushed, once. */
  ghost predicate Pushed(mk: set<Obj>, ms: seq<Obj>, s: set<Obj>, ms': seq<Obj>) {
    ms <= ms' && NoDup(ms'[|ms|..]) && ToSet(ms'[|ms|..]) == s - mk
  }

  lemma PushNothing(mk: set<Obj>, ms: seq<Obj>)
    ensures Pushed(mk, ms, {}, ms)
  {
    assert ms[|ms|..] == [];
  }

  lemma PushOne(mk: set<Obj>, ms: seq<Obj>, o: Obj)
    ensures Pushed(mk, ms, {o}, if o in mk then ms else ms + [o])
  {
    assert ms[|ms|..] == [] && (ms + [o])[|ms|..] == [o];
    assert ToSet([o]) == {o} && ToSet([]) == {};
  }

  lemma PushBoth(mk: set<Obj>, ms: seq<Obj>, s: set<Obj>, ms': seq<Obj>, t: set<Obj>, ms'': seq<Obj>)
    requires Pushed(mk, ms, s, ms') && Pushed(mk + s, ms', t, ms'')
    ensures Pushed(mk, ms, s + t, ms'')
  {
    var a, b := ms'[|ms|..], ms''[|ms'|..];
    assert ms''[|ms|..] == a + b;
    forall i, j | 0 <= i < j < |a + b|
      ensures (a + b)[i] != (a + b)[j]
    {
      if i < |a| <= j {
        assert (a + b)[i] in ToSet(a) && (a + b)[j] in ToSet(b);
      }
    }
    assert ToSet(a + b) == ToSet(a) + ToSet(b) by { ToSetAppend(a, b); }
  }

  lemma ToSetAppend(a: seq<Obj>, b: seq<Obj>)
    ensures ToSet(a + b) == ToSet(a) + ToSet(b)
  {
  }

  /** The state of the mark loop: what is marked is either traced already or on the stack, once; what is
      traced refers to marked objects only; and all of it is reachable. */
  ghost predicate Tracing(g: Graph, roots: set<Obj>, traced: set<Obj>, ms: seq<Obj>) {
    && NoDup(ms) && ToSet(ms) !! traced
    && traced + ToSet(ms) <= Reach(g, roots)
    && roots <= traced + ToSet(ms)
    && forall o :: o in traced && o in g ==> Children(g[o]) <= traced + ToSet(ms)
  }

  lemma TracingStarts(g: Graph, roots: set<Obj>, ms: seq<Obj>)
    requires roots <= g.Keys && Pushed({}, [], roots, ms)
    ensures Tracing(g, roots, {}, ms)
  {
    assert ms[0..] == ms;
    RootsReached(g, roots);
  }

  /** One round: the top of the stack is traced and its unmarked children are pushed. */
  lemma TracingGoesOn(g: Graph, roots: set<Obj>, traced: set<Obj>, ms: seq<Obj>, ms': seq<Obj>)
    requires Closed(g) && Tracing(g, roots, traced, ms) && |ms| > 0
    requires var p := ms[|ms| - 1];
      p in g && Pushed(traced + ToSet(ms), ms[..|ms| - 1], Children(g[p]), ms')
    ensures Tracing(g, roots, traced + {ms[|ms| - 1]}, ms')
    ensures traced + {ms[|ms| - 1]} + ToSet(ms') == traced + ToSet(ms) + Children(g[ms[|ms| - 1]])
  {
    var p, low := ms[|ms| - 1], ms[..|ms| - 1];
    var pushed := ms'[|low|..];
    assert ms' == low + pushed && ms == low + [p];
    ToSetAppend(low, pushed);
    ToSetAppend(low, [p]);
    assert ToSet([p]) == {p};
    ReachClosed(g, roots, p);
    assert p !in ToSet(low);
    forall i, j | 0 <= i < j < |ms'|
      ensures ms'[i] != ms'[j]
    {
      if i < |low| <= j {
        assert ms'[i] == ms[i] && ms'[i] in ToSet(ms);
        assert pushed[j - |low|] in ToSet(pushed);
      }
    }
  }

  /** When the stack is empty, exactly the reachable objects are marked. */
  lemma TracingEnds(g: Graph, roots: set<Obj>, traced: set<Obj>)
    requires Tracing(g, roots, traced, [])
    ensures traced == Reach(g, roots)
  {
    assert ToSet([]) == {};
    ReachLeast(g, roots, traced);
  }
}
