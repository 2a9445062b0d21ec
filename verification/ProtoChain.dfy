/** Field reads along the prototype chain: `op_obj_get` and `vm_obj_get_atom_typed` of
    src/vm/ops/ops_obj.c. They are given the objects of the heap, closed under `proto`; the chain may be
    of any length and may be cyclic. */
module ProtoChain {
  import opened Base
  import opened ObjectTable

  /** The atom `__proto__` is never looked up on the chain. */
  const ATOM_PROTO: nat := 0

  /** The deepest object on the chain whose table is consulted. */
  const MAX_DEPTH: nat := 1025

  /** What a read yields: a value, null for a missing field included, or a bounds trap. */
  datatype Read = Found(v: Value) | TooDeep | BadAtom

  ghost predicate Closed(objs: set<Object>)
    reads objs
  {
    forall o :: o in objs ==> o.proto == null || o.proto in objs
  }

  ghost predicate AllValid(objs: set<Object>)
    reads *
  {
    forall o :: o in objs ==> o.Valid()
  }

  /** The fields and prototypes of all objects at one moment. */
  datatype Heap = Heap(fields: map<Object, map<nat, Value>>, protos: map<Object, Object?>)

  ghost predicate WellFormed(h: Heap) {
    h.fields.Keys == h.protos.Keys && forall o :: o in h.protos ==> h.protos[o] == null || h.protos[o] in h.protos
  }

  ghost function HeapOf(objs: set<Object>): (h: Heap)
    requires AllValid(objs) && Closed(objs)
    reads *
    ensures WellFormed(h) && h.fields.Keys == objs
  {
    Heap(map o | o in objs :: o.Model(), map o | o in objs :: o.proto)
  }

  // ---- what a read means -----------------------------------------------------------------------------

  /** The `n`-th object on the chain from `o`, or null past its end. */
  ghost function Ancestor(h: Heap, o: Object, n: nat): (a: Object?)
    requires WellFormed(h) && o in h.protos
    ensures a == null || a in h.protos
  {
    if n == 0 then o
    else
      var a := Ancestor(h, o, n - 1);
      if a == null then null else h.protos[a]
  }

  ghost predicate Holds(h: Heap, a: Object?, k: nat) {
    a != null && a in h.fields && k in h.fields[a]
  }

  /** Depth `n` holds the nearest occurrence of `k`. */
  ghost predicate NearestAt(h: Heap, o: Object, k: nat, n: nat)
    requires WellFormed(h) && o in h.protos
  {
    Holds(h, Ancestor(h, o, n), k) && forall i :: 0 <= i < n ==> !Holds(h, Ancestor(h, o, i), k)
  }

  /** The nearest occurrence within reach; null if the chain ends without one; otherwise a trap. */
  ghost function ChainField(h: Heap, o: Object, k: nat): Read
    requires WellFormed(h) && o in h.protos
  {
    if exists n: nat :: n <= MAX_DEPTH && NearestAt(h, o, k, n) then
      var n: nat :| n <= MAX_DEPTH && NearestAt(h, o, k, n);
      Found(h.fields[Ancestor(h, o, n)][k])
    else if Ancestor(h, o, MAX_DEPTH + 1) == null then Found(Null)
    else TooDeep
  }

  ghost function OwnField(h: Heap, o: Object, k: nat): Read
    requires o in h.fields
  {
    Found(if k in h.fields[o] then h.fields[o][k] else Null)
  }

  /** What every way of reading field `k` of `o` must answer. */
  ghost function FieldOf(h: Heap, protoEnabled: bool, o: Object, k: nat): Read
    requires WellFormed(h) && o in h.protos
  {
    if !protoEnabled || k == ATOM_PROTO then OwnField(h, o, k) else ChainField(h, o, k)
  }

  lemma NearestUnique(h: Heap, o: Object, k: nat, n: nat, n': nat)
    requires WellFormed(h) && o in h.protos && NearestAt(h, o, k, n) && NearestAt(h, o, k, n')
    ensures n == n'
  {
  }

  lemma NearestDecides(h: Heap, o: Object, k: nat, n: nat)
    requires WellFormed(h) && o in h.protos && n <= MAX_DEPTH && NearestAt(h, o, k, n)
    ensures ChainField(h, o, k) == Found(h.fields[Ancestor(h, o, n)][k])
  {
    var n': nat :| n' <= MAX_DEPTH && NearestAt(h, o, k, n') &&
      ChainField(h, o, k) == Found(h.fields[Ancestor(h, o, n')][k]);
    NearestUnique(h, o, k, n, n');
  }

  lemma {:induction false} PastTheEnd(h: Heap, o: Object, m: nat, n: nat)
    requires WellFormed(h) && o in h.protos && m <= n && Ancestor(h, o, m) == null
    ensures Ancestor(h, o, n) == null
    decreases n
  {
    if m < n { PastTheEnd(h, o, m, n - 1); }
  }

  /** The chain ends right after depth `n` and nothing up to there holds `k`. */
  lemma MissingDecides(h: Heap, o: Object, k: nat, n: nat)
    requires WellFormed(h) && o in h.protos && n <= MAX_DEPTH && Ancestor(h, o, n + 1) == null
    requires forall i :: 0 <= i <= n ==> !Holds(h, Ancestor(h, o, i), k)
    ensures ChainField(h, o, k) == Found(Null)
  {
    PastTheEnd(h, o, n + 1, MAX_DEPTH + 1);
    forall n': nat | n' <= MAX_DEPTH ensures !NearestAt(h, o, k, n') {
      if n' > n { PastTheEnd(h, o, n + 1, n'); }
    }
  }

  /** The chain goes on after the deepest object consulted. */
  lemma DepthDecides(h: Heap, o: Object, k: nat)
    requires WellFormed(h) && o in h.protos && Ancestor(h, o, MAX_DEPTH + 1) != null
    requires forall i :: 0 <= i <= MAX_DEPTH ==> !Holds(h, Ancestor(h, o, i), k)
    ensures ChainField(h, o, k) == TooDeep
  {
  }

  /** Of a chain 1026 objects are looked at, the object itself included, whatever comes after them. A read traps if
      and only if none of them has the field and there is a further one; otherwise it yields the nearest, or null
      if none of them has it. The atom 0 is read from the object only. */
  lemma ReadMeans(h: Heap, o: Object, k: nat)
    requires WellFormed(h) && o in h.protos
    ensures var none := forall i :: 0 <= i < 1026 ==> !Holds(h, Ancestor(h, o, i), k);
      && (k != 0 ==> (FieldOf(h, true, o, k) == TooDeep <==> none && Ancestor(h, o, 1026) != null))
      && (k != 0 && none && Ancestor(h, o, 1026) == null ==> FieldOf(h, true, o, k) == Found(Null))
      && (k != 0 ==> forall n: nat | n < 1026 && NearestAt(h, o, k, n) ::
                       FieldOf(h, true, o, k) == Found(h.fields[Ancestor(h, o, n)][k]))
    ensures FieldOf(h, true, o, 0) == Found(if 0 in h.fields[o] then h.fields[o][0] else Null)
  {
    forall n: nat | n < 1026 && NearestAt(h, o, k, n)
      ensures ChainField(h, o, k) == Found(h.fields[Ancestor(h, o, n)][k])
    {
      NearestDecides(h, o, k, n);
    }
    if i :| 0 <= i < 1026 && Holds(h, Ancestor(h, o, i), k) {
      var n := Nearest(h, o, k, i);
      NearestDecides(h, o, k, n);
    } else {
      forall n: nat | n <= 1025 ensures !NearestAt(h, o, k, n) {
        assert !Holds(h, Ancestor(h, o, n), k);
      }
    }
  }

  lemma {:induction false} Nearest(h: Heap, o: Object, k: nat, i: nat) returns (n: nat)
    requires WellFormed(h) && o in h.protos && Holds(h, Ancestor(h, o, i), k)
    ensures n <= i && NearestAt(h, o, k, n)
    decreases i
  {
    if j :| 0 <= j < i && Holds(h, Ancestor(h, o, j), k) {
      n := Nearest(h, o, k, j);
    } else {
      n := i;
    }
  }

  /** On a cyclic chain without the field every read traps. */
  lemma CycleTraps(h: Heap, o: Object, k: nat)
    requires WellFormed(h) && o in h.protos && k != ATOM_PROTO
    requires forall n: nat :: Ancestor(h, o, n) != null && !Holds(h, Ancestor(h, o, n), k)
    ensures FieldOf(h, true, o, k) == TooDeep
  {
    forall n: nat | n <= MAX_DEPTH ensures !NearestAt(h, o, k, n) {
      assert !Holds(h, Ancestor(h, o, n), k);
    }
  }

  // ---- the two readers -----------------------------------------------------------------------------------

  /** Every lookup of `k` comes to an end; see `ProbeTable.ProbeEndsIff`. */
  ghost predicate LookupsStop(objs: set<Object>, k: nat)
    reads *
  {
    forall o :: o in objs ==> o.LookupStops(k)
  }

  /** Looking a key up in one object disturbs nothing but that object's inline cache. */
  method Consult(ghost objs: set<Object>, cur: Object, k: nat) returns (v: Option<Value>, next: Object?)
    requires cur in objs && Closed(objs) && AllValid(objs) && LookupsStop(objs, k)
    modifies cur`icAtom, cur`icSlot, cur`icCap, cur`icPolyAtom, cur`icPolySlot
    ensures Closed(objs) && AllValid(objs) && LookupsStop(objs, k) && HeapOf(objs) == old(HeapOf(objs))
    ensures Holds(HeapOf(objs), cur, k) <==> v.Some?
    ensures v.Some? ==> v.value == HeapOf(objs).fields[cur][k]
    ensures next == HeapOf(objs).protos[cur]
  {
    hide ProbeTable.TableInv, IsCap, ModelOf;
    v := cur.Slot(k);
    forall o | o in objs
      ensures o.Valid() && o.LookupStops(k) && o.Model() == old(o.Model()) && o.proto == old(o.proto)
    {
      if o != cur { assert unchanged(o); }
    }
    SameHeap(objs);
    next := cur.proto;
  }

  twostate lemma SameHeap(objs: set<Object>)
    requires old(AllValid(objs)) && old(Closed(objs))
    requires forall o :: o in objs ==> o.Valid() && o.Model() == old(o.Model()) && o.proto == old(o.proto)
    ensures Closed(objs) && AllValid(objs) && HeapOf(objs) == old(HeapOf(objs))
  {
    hide ProbeTable.TableInv, IsCap, ModelOf;
  }

  /** The walk shared by both readers: at most `MAX_DEPTH + 1` tables are consulted, after which a further
      prototype means a trap. */
  method WalkChain(ghost objs: set<Object>, o: Object, k: nat) returns (r: Read)
    requires o in objs && Closed(objs) && AllValid(objs) && LookupsStop(objs, k)
    modifies objs`icAtom, objs`icSlot, objs`icCap, objs`icPolyAtom, objs`icPolySlot
    ensures Closed(objs) && AllValid(objs) && LookupsStop(objs, k) && HeapOf(objs) == old(HeapOf(objs))
    ensures r == ChainField(HeapOf(objs), o, k)
  {
    hide AllValid, LookupsStop, ChainField, Closed, HeapOf;
    var cur := o;
    var steps := 0;
    ghost var h := HeapOf(objs);
    while true
      invariant 0 <= steps <= MAX_DEPTH && cur in objs && cur == Ancestor(h, o, steps)
      invariant Closed(objs) && AllValid(objs) && LookupsStop(objs, k) && HeapOf(objs) == h
      invariant forall i :: 0 <= i < steps ==> !Holds(h, Ancestor(h, o, i), k)
      decreases MAX_DEPTH - steps
    {
      var slot, p := Consult(objs, cur, k);
      if slot.Some? {
        NearestDecides(h, o, k, steps);
        return Found(slot.value);
      }
      if p == null {
        MissingDecides(h, o, k, steps);
        return Found(Null);
      }
      cur := p;
      if steps > 1024 {
        DepthDecides(h, o, k);
        return TooDeep;
      }
      steps := steps + 1;
    }
  }

  /** Reading the object's own field, with a slot hint or without. */
  method ReadOwn(ghost objs: set<Object>, o: Object, k: nat, hint: Option<nat>) returns (v: Value)
    requires o in objs && Closed(objs) && AllValid(objs) && LookupsStop(objs, k)
    modifies o`icAtom, o`icSlot, o`icCap, o`icPolyAtom, o`icPolySlot
    ensures Closed(objs) && AllValid(objs) && LookupsStop(objs, k) && HeapOf(objs) == old(HeapOf(objs))
    ensures Found(v) == OwnField(HeapOf(objs), o, k)
  {
    hide ProbeTable.TableInv, IsCap, ModelOf;
    if hint.Some? { v := o.GetSlot(hint.value, k); } else { v := o.Get(k); }
    forall o' | o' in objs
      ensures o'.Valid() && o'.LookupStops(k) && o'.Model() == old(o'.Model()) && o'.proto == old(o'.proto)
    {
      if o' != o { assert unchanged(o'); }
    }
    SameHeap(objs);
  }

  lemma AloneOnChain(h: Heap, o: Object, k: nat)
    requires WellFormed(h) && o in h.protos && h.protos[o] == null
    ensures ChainField(h, o, k) == OwnField(h, o, k)
  {
    if k in h.fields[o] {
      assert NearestAt(h, o, k, 0);
      NearestDecides(h, o, k, 0);
    } else {
      assert Ancestor(h, o, 1) == null;
      MissingDecides(h, o, k, 0);
    }
  }

  /** `op_obj_get` on a non-null object. */
  method ObjGet(ghost objs: set<Object>, protoEnabled: bool, natoms: nat, o: Object, atom: nat) returns (r: Read)
    requires o in objs && Closed(objs) && AllValid(objs) && LookupsStop(objs, atom)
    modifies objs`icAtom, objs`icSlot, objs`icCap, objs`icPolyAtom, objs`icPolySlot
    ensures Closed(objs) && AllValid(objs) && HeapOf(objs) == old(HeapOf(objs))
    ensures r == if atom >= natoms then BadAtom else FieldOf(HeapOf(objs), protoEnabled, o, atom)
  {
    hide AllValid, LookupsStop, ChainField, OwnField;
    if atom >= natoms { return BadAtom; }
    if !protoEnabled || atom == ATOM_PROTO {
      var v := ReadOwn(objs, o, atom, None);
      return Found(v);
    }
    r := WalkChain(objs, o, atom);
  }

  /** `vm_obj_get_atom_typed` on a non-null object, up to the conversion into the register: whatever the
      slot hint, it reads what `op_obj_get` reads. */
  method GetAtomTyped(ghost objs: set<Object>, protoEnabled: bool, o: Object, atom: nat, hint: nat)
    returns (r: Read)
    requires o in objs && Closed(objs) && AllValid(objs) && LookupsStop(objs, atom)
    modifies objs`icAtom, objs`icSlot, objs`icCap, objs`icPolyAtom, objs`icPolySlot
    ensures Closed(objs) && AllValid(objs) && HeapOf(objs) == old(HeapOf(objs))
    ensures r == FieldOf(HeapOf(objs), protoEnabled, o, atom)
  {
    hide AllValid, LookupsStop, ChainField, OwnField;
    if !protoEnabled || atom == ATOM_PROTO || o.proto == null {
      var v := ReadOwn(objs, o, atom, Some(hint));
      if o.proto == null { AloneOnChain(HeapOf(objs), o, atom); }
      return Found(v);
    }
    r := WalkChain(objs, o, atom);
  }
}
