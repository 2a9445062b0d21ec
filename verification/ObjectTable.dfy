/** The field table of src/types/object.c: an open-addressing table with tombstones that doubles when
    it gets full, and a small inline cache in front of it. It behaves as a map from atoms to values. */
module ObjectTable {
  import opened Base
  import opened ProbeTable

  const INIT_CAP: nat := 8
  const IC_NONE: nat := 0xFFFF_FFFF

  /** Contents of a slot; numeric boxes are identified with the numbers in them. */
  datatype Value = Null | Data(bits: nat)

  /** Capacities are 8 times a power of two. */
  predicate IsCap(cap: nat) {
    cap == INIT_CAP || (cap > INIT_CAP && cap % 2 == 0 && IsCap(cap / 2))
  }

  /** The map a table stands for. */
  function ModelOf(vals: seq<Value>, pos: map<nat, nat>): map<nat, Value>
    requires forall k :: k in pos ==> pos[k] < |vals|
  {
    map k | k in pos :: vals[pos[k]]
  }

  lemma ModelKeys(vals: seq<Value>, pos: map<nat, nat>)
    requires forall k :: k in pos ==> pos[k] < |vals|
    ensures ModelOf(vals, pos).Keys == pos.Keys && |ModelOf(vals, pos)| == |pos|
  {
    assert ModelOf(vals, pos).Keys == pos.Keys;
  }

  /** The part of the map held by the first `n` slots. */
  ghost function PartOf(keys: seq<nat>, vals: seq<Value>, states: seq<Slot>, n: nat): map<nat, Value>
    requires n <= |keys| == |vals| == |states|
    decreases n
  {
    if n == 0 then map[]
    else if states[n - 1] == Occupied then PartOf(keys, vals, states, n - 1)[keys[n - 1] := vals[n - 1]]
    else PartOf(keys, vals, states, n - 1)
  }

  lemma {:induction false} PartOfTable(hash: Hash, keys: seq<nat>, vals: seq<Value>, states: seq<Slot>,
                                       pos: map<nat, nat>, n: nat)
    requires TableInv(hash, keys, states, pos) && n <= |keys| == |vals|
    ensures PartOf(keys, vals, states, n) == map k | k in pos && pos[k] < n :: vals[pos[k]]
    ensures |PartOf(keys, vals, states, n)| <= |pos|
    ensures n < |keys| && states[n] == Occupied ==> keys[n] !in PartOf(keys, vals, states, n)
    decreases n
  {
    hide PathClear;
    if n > 0 { PartOfTable(hash, keys, vals, states, pos, n - 1); }
    var part := PartOf(keys, vals, states, n);
    assert part == map k | k in pos && pos[k] < n :: vals[pos[k]];
    SubsetCard(part.Keys, pos.Keys);
  }

  lemma NextPart(hash: Hash, keys: seq<nat>, vals: seq<Value>, states: seq<Slot>, pos: map<nat, nat>, n: nat)
    requires n < |keys| == |vals| == |states| && TableInv(hash, keys, states, pos) && states[n] == Occupied
    ensures keys[n] !in PartOf(keys, vals, states, n) && |PartOf(keys, vals, states, n)| < |pos|
    ensures PartOf(keys, vals, states, n + 1) == PartOf(keys, vals, states, n)[keys[n] := vals[n]]
  {
    hide TableInv, PathClear;
    PartOfTable(hash, keys, vals, states, pos, n);
    PartOfTable(hash, keys, vals, states, pos, n + 1);
    InsertCard(PartOf(keys, vals, states, n), keys[n], vals[n]);
  }

  lemma InsertCard(m: map<nat, Value>, k: nat, v: Value)
    requires k !in m
    ensures |m[k := v]| == |m| + 1
  {
    assert m[k := v].Keys == m.Keys + {k};
  }

  lemma WholeTable(hash: Hash, keys: seq<nat>, vals: seq<Value>, states: seq<Slot>, pos: map<nat, nat>)
    requires TableInv(hash, keys, states, pos) && |keys| == |vals|
    ensures PartOf(keys, vals, states, |keys|) == ModelOf(vals, pos)
  {
    hide PathClear;
    PartOfTable(hash, keys, vals, states, pos, |keys|);
  }

  lemma SubsetCard(x: set<nat>, y: set<nat>)
    requires x <= y
    ensures |x| <= |y|
  {
    assert y == x + (y - x);
  }

  /** The first `n` entries without those for the atom. */
  function Dropped(atoms: seq<nat>, atom: nat, n: nat): (r: seq<nat>)
    ensures |r| == |atoms|
  {
    seq(|atoms|, q requires 0 <= q < |atoms| => if q < n && atoms[q] == atom then IC_NONE else atoms[q])
  }

  class Object {
    const hash: Hash
    var keys: array<nat>
    var vals: array<Value>
    var states: array<Slot>
    var cap: nat
    var len: nat

    /** The inline cache: the most recent entry, and three older ones. */
    var icAtom: nat
    var icSlot: nat
    var icCap: nat
    var icPolyAtom: seq<nat>
    var icPolySlot: seq<nat>

    /** The next object on the prototype chain. */
    var proto: Object?

    /** Where each present key sits. */
    ghost var pos: map<nat, nat>

    /** The shape of the table; it says nothing about the contents of the inline cache. */
    ghost predicate Shape()
      reads this, keys, states
    {
      && IsCap(cap) && keys.Length == vals.Length == states.Length == cap > 0
      && |icPolyAtom| == |icPolySlot| == 3
      && TableInv(hash, keys[..], states[..], pos)
    }

    ghost predicate Valid()
      reads this, keys, states
    {
      && Shape()
      && len == |pos|
      && len * 10 < cap * 7
    }

    /** The map this table stands for. */
    ghost function Model(): map<nat, Value>
      reads this, keys, vals, states
      requires Shape()
    {
      ModelOf(vals[..], pos)
    }

    /** `find_slot` returns: the key is there, the table is empty, or an empty slot ends the probe. */
    ghost predicate ProbeStops(k: nat)
      reads this, states
    {
      len == 0 || k in pos || HasEmpty(states[..])
    }

    /** The same for `find_occupied_slot`, which scans small tables linearly. */
    ghost predicate LookupStops(k: nat)
      reads this, states
    {
      cap <= INIT_CAP || ProbeStops(k)
    }

    /** `jello_object_init_empty`. */
    constructor (hash: Hash)
      ensures Valid() && fresh(keys) && fresh(vals) && fresh(states)
      ensures Model() == map[] && len == 0 && cap == INIT_CAP && proto == null && this.hash == hash
      ensures NoTombs(states[..]) && forall i :: 0 <= i < INIT_CAP ==> states[i] == Empty
    {
      this.hash := hash;
      keys := new nat[INIT_CAP](i => 0);
      vals := new Value[INIT_CAP](i => Null);
      states := new Slot[INIT_CAP](i => Empty);
      cap, len, pos, proto := INIT_CAP, 0, map[], null;
      icAtom, icSlot, icCap := IC_NONE, 0, 0;
      icPolyAtom, icPolySlot := [IC_NONE, IC_NONE, IC_NONE], [0, 0, 0];
    }

    // ---- inline cache ------------------------------------------------------------------------------------

    /** `jello_object_invalidate_ic`. */
    method InvalidateIc()
      modifies `icAtom, `icSlot, `icCap, `icPolyAtom, `icPolySlot
      ensures icAtom == IC_NONE && icSlot == 0 && icCap == 0
      ensures icPolyAtom == [IC_NONE, IC_NONE, IC_NONE] && icPolySlot == [0, 0, 0]
    {
      icAtom, icSlot, icCap := IC_NONE, 0, 0;
      icPolyAtom, icPolySlot := [IC_NONE, IC_NONE, IC_NONE], [0, 0, 0];
    }

    /** `object_ic_store`: the atom becomes the most recent entry; unless it was that already, a most recent
        entry of this capacity moves down, and the oldest is dropped. */
    method IcStore(atom: nat, slot: nat)
      requires |icPolyAtom| == |icPolySlot| == 3
      modifies `icAtom, `icSlot, `icCap, `icPolyAtom, `icPolySlot
      ensures |icPolyAtom| == |icPolySlot| == 3
      ensures icAtom == atom && icSlot == slot && icCap == cap
      ensures var down := old(icAtom) !in {atom, IC_NONE} && old(icCap) == cap;
        && icPolyAtom == (if down then [old(icAtom)] + old(icPolyAtom)[..2] else old(icPolyAtom))
        && icPolySlot == (if down then [old(icSlot)] + old(icPolySlot)[..2] else old(icPolySlot))
    {
      if icAtom == atom && icCap == cap {
        icSlot := slot;
        return;
      }
      if icAtom != IC_NONE && icCap == cap {
        icPolyAtom := [icAtom, icPolyAtom[0], icPolyAtom[1]];
        icPolySlot := [icSlot, icPolySlot[0], icPolySlot[1]];
      }
      icAtom, icSlot, icCap := atom, slot, cap;
    }

    /** The older entry `p` is for the atom, and the table agrees. */
    predicate PolyHit(atoms: seq<nat>, slots: seq<nat>, p: nat, atom: nat)
      reads this, keys, states
      requires p < |atoms| == |slots| && keys.Length == states.Length == cap
    {
      atoms[p] == atom && HintHolds(slots[p], atom)
    }

    /** `object_ic_try`. A cached entry is a hit exactly if the table agrees with it, so that stale entries do
        no harm. A stale most recent entry empties the cache, stale older ones are dropped; the first older hit
        changes places with the most recent entry. */
    method IcTry(atom: nat) returns (slot: Option<nat>)
      requires |icPolyAtom| == |icPolySlot| == 3 && keys.Length == states.Length == cap
      modifies `icAtom, `icSlot, `icCap, `icPolyAtom, `icPolySlot
      ensures |icPolyAtom| == |icPolySlot| == 3
      ensures slot.Some? ==> HintHolds(slot.value, atom)
      ensures old(icCap) != cap ==> slot == None && unchanged(this)
      ensures old(icCap) == cap && old(icAtom) == atom ==>
        if HintHolds(old(icSlot), atom) then slot == Some(old(icSlot)) && unchanged(this)
        else slot == None && icAtom == IC_NONE && icCap == 0 && icPolyAtom == [IC_NONE, IC_NONE, IC_NONE]
      ensures old(icCap) == cap && old(icAtom) != atom ==>
        (slot.Some? <==> exists p :: 0 <= p < 3 && old(PolyHit(icPolyAtom, icPolySlot, p, atom)))
      ensures old(icCap) == cap && old(icAtom) != atom && slot.Some? ==>
        exists p :: 0 <= p < 3 && old(PolyHit(icPolyAtom, icPolySlot, p, atom))
          && (forall q :: 0 <= q < p ==> !old(PolyHit(icPolyAtom, icPolySlot, q, atom)))
          && slot.value == old(icPolySlot)[p] && icAtom == atom && icSlot == slot.value && icCap == cap
          && icPolyAtom == Dropped(old(icPolyAtom), atom, p)[p := old(icAtom)]
          && icPolySlot == old(icPolySlot)[p := old(icSlot)]
      ensures old(icCap) == cap && old(icAtom) != atom && slot.None? ==>
        && icAtom == old(icAtom) && icSlot == old(icSlot) && icCap == cap
        && icPolyAtom == Dropped(old(icPolyAtom), atom, 3) && icPolySlot == old(icPolySlot)
    {
      if icCap != cap { return None; }
      if icAtom == atom {
        if icSlot < cap && states[icSlot] == Occupied && keys[icSlot] == atom { return Some(icSlot); }
        InvalidateIc();
        return None;
      }
      var p := 0;
      while p < 3
        invariant 0 <= p <= 3 && icPolySlot == old(icPolySlot) && icPolyAtom == Dropped(old(icPolyAtom), atom, p)
        invariant icAtom == old(icAtom) && icSlot == old(icSlot) && icCap == cap
        invariant forall q :: 0 <= q < p ==> !old(PolyHit(icPolyAtom, icPolySlot, q, atom))
      {
        if icPolyAtom[p] == atom {
          var i := icPolySlot[p];
          if i >= cap || states[i] != Occupied || keys[i] != atom {
            icPolyAtom := icPolyAtom[p := IC_NONE];
          } else {
            assert old(PolyHit(icPolyAtom, icPolySlot, p, atom));
            var mruAtom, mruSlot := icAtom, icSlot;
            icAtom, icSlot := atom, i;
            icPolyAtom, icPolySlot := icPolyAtom[p := mruAtom], icPolySlot[p := mruSlot];
            return Some(i);
          }
        }
        p := p + 1;
      }
      return None;
    }

    // ---- probing -----------------------------------------------------------------------------------------

    /** `find_slot`: where the key is, or where it belongs: the first tombstone on its path if any. */
    method FindSlot(k: nat) returns (found: bool, i: nat)
      requires Shape() && len == |pos| && ProbeStops(k)
      modifies `icAtom, `icSlot, `icCap, `icPolyAtom, `icPolySlot
      ensures |icPolyAtom| == |icPolySlot| == 3
      ensures i < cap && (found <==> k in pos)
      ensures found ==> i == pos[k]
      ensures !found ==> states[i] != Occupied && PathClear(hash, states[..], k, i)
      ensures len == 0 ==> i == Home(hash, k, cap)
    {
      hide Home, Passed, PathClear, TableInv;
      var h := Home(hash, k, cap);
      if len == 0 {
        HomeIsFree(k);
        return false, h;
      }
      i := h;
      var firstTomb: Option<nat> := None;
      ghost var d := 0;
      NothingPassed(hash, keys[..], states[..], k);
      while true
        invariant d < cap && i == ProbeAt(h, d, cap) && Passed(hash, keys[..], states[..], k, d)
        invariant |icPolyAtom| == |icPolySlot| == 3
        invariant firstTomb.Some? ==>
                    firstTomb.value < cap && states[firstTomb.value] == Tomb && Steps(h, firstTomb.value, cap) < d
        decreases cap - d
      {
        if states[i] == Empty {
          EmptyEndsProbe(hash, keys[..], states[..], pos, k, d);
          if firstTomb.Some? { return false, firstTomb.value; }
          return false, i;
        }
        if states[i] == Occupied && keys[i] == k {
          FoundAtPos(hash, keys[..], states[..], pos, k, i);
          IcStore(k, i);
          return true, i;
        }
        if states[i] == Tomb && firstTomb.None? { firstTomb := Some(i); }
        PassOne(hash, keys[..], states[..], k, d);
        if d + 1 == cap { PassedEverything(hash, keys[..], states[..], pos, k); }
        d := d + 1;
        i := if i + 1 == cap then 0 else i + 1;
      }
    }

    /** In an empty table the home slot of a key is free. */
    lemma HomeIsFree(k: nat)
      requires Shape() && |pos| == 0
      ensures states[Home(hash, k, cap)] != Occupied && PathClear(hash, states[..], k, Home(hash, k, cap))
    {
      hide Home;
    }

    /** The loop of `find_occupied_slot` over small tables. */
    method ScanSlots(k: nat) returns (found: bool, i: nat)
      requires Shape()
      ensures found <==> k in pos
      ensures found ==> i == pos[k]
    {
      i := 0;
      while i < cap
        invariant 0 <= i <= cap
        invariant forall j :: 0 <= j < i ==> !(states[j] == Occupied && keys[j] == k)
      {
        if states[i] == Occupied && keys[i] == k { return true, i; }
        i := i + 1;
      }
      return false, 0;
    }

    /** The probe loop of `find_occupied_slot`. */
    method ProbeOccupied(k: nat) returns (found: bool, i: nat)
      requires Shape() && (k in pos || HasEmpty(states[..]))
      ensures found <==> k in pos
      ensures found ==> i == pos[k]
    {
      hide Home, Passed, PathClear, TableInv;
      var h := Home(hash, k, cap);
      i := h;
      ghost var d := 0;
      NothingPassed(hash, keys[..], states[..], k);
      while true
        invariant d < cap && i == ProbeAt(h, d, cap) && Passed(hash, keys[..], states[..], k, d)
        decreases cap - d
      {
        if states[i] == Empty {
          EmptyEndsProbe(hash, keys[..], states[..], pos, k, d);
          return false, 0;
        }
        if states[i] == Occupied && keys[i] == k {
          FoundAtPos(hash, keys[..], states[..], pos, k, i);
          return true, i;
        }
        PassOne(hash, keys[..], states[..], k, d);
        if d + 1 == cap { PassedEverything(hash, keys[..], states[..], pos, k); }
        d := d + 1;
        i := if i + 1 == cap then 0 else i + 1;
      }
    }

    /** `find_occupied_slot`: cache, then linear scan or probe. Whatever the cache holds, the answer is
        that of the table. */
    method FindOccupiedSlot(k: nat) returns (found: bool, i: nat)
      requires Valid() && LookupStops(k)
      modifies `icAtom, `icSlot, `icCap, `icPolyAtom, `icPolySlot
      ensures Valid() && Model() == old(Model())
      ensures found <==> k in pos
      ensures found ==> i == pos[k]
    {
      hide PathClear, Home, IsCap, Dropped, PolyHit;
      var hit := IcTry(k);
      if hit.Some? { return true, hit.value; }
      if len == 0 { return false, 0; }
      if len <= 8 && cap <= INIT_CAP {
        found, i := ScanSlots(k);
      } else {
        found, i := ProbeOccupied(k);
      }
      if found { IcStore(k, i); }
    }

    // ---- growing -----------------------------------------------------------------------------------------

    /** Bind an empty table of `newCap` slots, as `object_bind_table` and `memset` do. */
    method BindEmpty(newCap: nat)
      requires IsCap(newCap)
      modifies this
      ensures proto == old(proto)
      ensures fresh(keys) && fresh(vals) && fresh(states)
      ensures cap == newCap && keys.Length == vals.Length == states.Length == cap
      ensures TableInv(hash, keys[..], states[..], pos) && pos == map[] && len == 0
      ensures forall i :: 0 <= i < cap ==> states[i] == Empty
      ensures icPolyAtom == old(icPolyAtom) && icPolySlot == old(icPolySlot)
    {
      CapPositive(newCap);
      keys := new nat[newCap](i => 0);
      vals := new Value[newCap](i => Null);
      states := new Slot[newCap](i => Empty);
      cap, len, pos := newCap, 0, map[];
      EmptyTableInv(hash, keys[..], states[..]);
    }

    /** Write a key into a free slot found for it. */
    method Place(k: nat, i: nat, v: Value)
      requires Shape() && len == |pos| && k !in pos
      requires i < cap && states[i] != Occupied && PathClear(hash, states[..], k, i)
      modifies `len, `pos, keys, vals, states
      ensures Shape() && len == |pos| == old(len) + 1
      ensures pos == old(pos)[k := i]
      ensures keys[..] == old(keys[..])[i := k] && states[..] == old(states[..])[i := Occupied]
      ensures vals[..] == old(vals[..])[i := v]
    {
      hide TableInv, PathClear;
      InsertKeepsInv(hash, keys[..], states[..], pos, k, i);
      keys[i] := k;
      states[i] := Occupied;
      vals[i] := v;
      len := len + 1;
      pos := pos[k := i];
      assert keys[..] == old(keys[..])[i := k] && states[..] == old(states[..])[i := Occupied];
    }

    /** One step of the loop in `rehash`: find a slot and fill it. */
    method Reinsert(k: nat, v: Value)
      requires Shape() && len == |pos| < cap && k !in pos && NoTombs(states[..])
      modifies `len, `pos, `icAtom, `icSlot, `icCap, `icPolyAtom, `icPolySlot, keys, vals, states
      ensures Shape() && len == |pos| == old(len) + 1 && NoTombs(states[..])
      ensures Model() == old(Model())[k := v]
    {
      hide TableInv, PathClear, Home, IsCap;
      EmptyWithoutTombs(hash, keys[..], states[..], pos);
      var found, i := FindSlot(k);
      SlotUnused(i);
      Place(k, i, v);
    }

    lemma PositionsInRange()
      requires Shape()
      ensures forall k :: k in pos ==> pos[k] < cap
    {
    }

    /** No key sits in a slot that is not occupied. */
    lemma SlotUnused(i: nat)
      requires Shape() && i < cap && states[i] != Occupied
      ensures forall k :: k in pos ==> pos[k] < cap && pos[k] != i
    {
    }

    /** One round of the loop in `rehash`. */
    method ReinsertSlot(oldKeys: seq<nat>, oldVals: seq<Value>, oldStates: seq<Slot>, ghost oldPos: map<nat, nat>,
                        i: nat)
      requires i < |oldKeys| == |oldVals| == |oldStates| && TableInv(hash, oldKeys, oldStates, oldPos)
      requires Shape() && len == |pos| && NoTombs(states[..]) && |oldPos| < cap
      requires Model() == PartOf(oldKeys, oldVals, oldStates, i)
      modifies `len, `pos, `icAtom, `icSlot, `icCap, `icPolyAtom, `icPolySlot, keys, vals, states
      ensures Shape() && len == |pos| && NoTombs(states[..])
      ensures Model() == PartOf(oldKeys, oldVals, oldStates, i + 1)
    {
      hide TableInv, PathClear, Home, IsCap, ModelOf;
      if oldStates[i] == Occupied {
        NextPart(hash, oldKeys, oldVals, oldStates, oldPos, i);
        PositionsInRange();
        ModelKeys(vals[..], pos);
        Reinsert(oldKeys[i], oldVals[i]);
      }
    }

    /** The loop of `rehash`: move the entries of the old table, given by its contents, into this one. */
    method ReinsertAll(oldKeys: seq<nat>, oldVals: seq<Value>, oldStates: seq<Slot>, ghost oldPos: map<nat, nat>)
      requires Shape() && pos == map[] && len == 0 && NoTombs(states[..])
      requires |oldKeys| == |oldVals| == |oldStates| && TableInv(hash, oldKeys, oldStates, oldPos)
      requires (forall k :: k in oldPos ==> oldPos[k] < |oldVals|) && |oldPos| < cap
      modifies `len, `pos, `icAtom, `icSlot, `icCap, `icPolyAtom, `icPolySlot, keys, vals, states
      ensures Shape() && len == |pos| && NoTombs(states[..])
      ensures Model() == ModelOf(oldVals, oldPos)
    {
      hide TableInv, PathClear, Home, IsCap;
      assert Model() == map[];
      hide ModelOf;
      var i := 0;
      while i < |oldKeys|
        invariant 0 <= i <= |oldKeys|
        invariant Shape() && len == |pos| && NoTombs(states[..])
        invariant Model() == PartOf(oldKeys, oldVals, oldStates, i)
      {
        ReinsertSlot(oldKeys, oldVals, oldStates, oldPos, i);
        i := i + 1;
      }
      WholeTable(hash, oldKeys, oldVals, oldStates, oldPos);
    }

    /** `rehash`: twice the slots, the same map, no tombstones. */
    method Rehash()
      requires Valid()
      modifies this
      ensures proto == old(proto)
      ensures Valid() && fresh(keys) && fresh(vals) && fresh(states)
      ensures cap == 2 * old(cap) && len == old(len)
      ensures Model() == old(Model()) && NoTombs(states[..]) && HasEmpty(states[..])
    {
      hide TableInv, PathClear, Home, IsCap, ModelOf;
      var oldKeys, oldVals, oldStates := keys[..], vals[..], states[..];
      ghost var oldPos := pos;
      CapPositive(cap);
      PositionsInRange();
      BindEmpty(2 * cap);
      ReinsertAll(oldKeys, oldVals, oldStates, oldPos);
      PositionsInRange();
      ModelKeys(vals[..], pos);
      ModelKeys(oldVals, oldPos);
      EmptyWithoutTombs(hash, keys[..], states[..], pos);
      InvalidateIc();
    }

    /** `ensure_cap`, in 32-bit arithmetic: grow when the load would reach seven tenths. */
    method EnsureCap()
      requires Valid() && cap <= 0x2000_0000
      modifies this
      ensures proto == old(proto)
      ensures Valid() && (len + 1) * 10 < cap * 7 && len == old(len) && Model() == old(Model())
      ensures if (old(len) + 1) * 10 < old(cap) * 7
              then cap == old(cap) && pos == old(pos) && keys == old(keys) && vals == old(vals) && states == old(states)
              else cap == 2 * old(cap) && fresh(keys) && fresh(vals) && fresh(states)
                   && NoTombs(states[..]) && HasEmpty(states[..])
    {
      hide TableInv, PathClear, Home, IsCap;
      if (len + 1) * 10 % U32 < cap * 7 % U32 { return; }
      CapPositive(cap);
      Rehash();
    }

    /** The probe of an insertion of `k` stops, or the table is about to be rebuilt. */
    ghost predicate InsertStops(k: nat)
      reads this, states
    {
      (len + 1) * 10 >= cap * 7 || ProbeStops(k)
    }

    /** `jello_object_upsert` once there is room. */
    method FindOrPlace(k: nat) returns (i: nat, existed: bool)
      requires Valid() && ProbeStops(k) && (len + 1) * 10 < cap * 7
      modifies `len, `pos, `icAtom, `icSlot, `icCap, `icPolyAtom, `icPolySlot, keys, vals, states
      ensures Valid() && k in pos && i == pos[k]
      ensures existed <==> k in old(pos)
      ensures Model() == if existed then old(Model()) else old(Model())[k := Null]
      ensures old(NoTombs(states[..])) ==> NoTombs(states[..])
      ensures states[..] == if existed then old(states[..]) else old(states[..])[i := Occupied]
      ensures old(len) == 0 ==> i == Home(hash, k, cap)
    {
      hide TableInv, PathClear, Home, IsCap;
      existed, i := FindSlot(k);
      if !existed {
        SlotUnused(i);
        Place(k, i, Null);
      } else {
        IcStore(k, i);
      }
    }

    /** `jello_object_upsert`: the slot of `k`, which starts out null if it is new. */
    method Upsert(k: nat) returns (i: nat, existed: bool)
      requires Valid() && InsertStops(k) && cap <= 0x2000_0000
      modifies this, keys, vals, states
      ensures proto == old(proto)
      ensures Valid() && k in pos && i == pos[k]
      ensures existed <==> k in old(pos)
      ensures Model() == if existed then old(Model()) else old(Model())[k := Null]
      ensures cap == if (old(len) + 1) * 10 < old(cap) * 7 then old(cap) else 2 * old(cap)
      ensures old(NoTombs(states[..])) ==> NoTombs(states[..])
      ensures if cap == old(cap) then keys == old(keys) && vals == old(vals) && states == old(states)
              else fresh(keys) && fresh(vals) && fresh(states)
      ensures cap == old(cap) ==> states[..] == if existed then old(states[..]) else old(states[..])[i := Occupied]
      ensures cap == old(cap) && old(len) == 0 ==> i == Home(hash, k, cap)
    {
      hide TableInv, PathClear, Home, IsCap;
      EnsureCap();
      assert Model().Keys == pos.Keys && old(Model().Keys) == old(pos.Keys);
      i, existed := FindOrPlace(k);
    }

    // ---- consequences ------------------------------------------------------------------------------------

    /** `len` counts the occupied slots. */
    lemma LenCountsOccupied()
      requires Valid()
      ensures len == CountOccupied(states[..])
    {
      KeysAreOccupiedSlots(hash, keys[..], states[..], pos);
    }

    /** Until the first removal every probe ends, for every key. */
    lemma WithoutRemovesProbesEnd(k: nat)
      requires Valid() && NoTombs(states[..])
      ensures ProbeStops(k) && LookupStops(k) && ProbeEnds(hash, keys[..], states[..], k)
    {
      EmptyWithoutTombs(hash, keys[..], states[..], pos);
      ProbeEndsIff(hash, keys[..], states[..], pos, k);
    }

    // ---- the map operations ------------------------------------------------------------------------------

    /** Writing through a slot pointer changes the value of that key only. */
    method Store(k: nat, i: nat, v: Value)
      requires Valid() && k in pos && i == pos[k]
      modifies vals
      ensures Valid() && Model() == old(Model())[k := v]
    {
      ghost var before := vals[..];
      vals[i] := v;
      forall k' | k' in pos && k' != k ensures pos[k'] < cap && vals[pos[k']] == before[pos[k']] {
        assert keys[..][pos[k']] == k';
      }
    }

    /** `jello_object_set`. */
    method Set(k: nat, v: Value)
      requires Valid() && InsertStops(k) && cap <= 0x2000_0000
      modifies this, keys, vals, states
      ensures proto == old(proto)
      ensures Valid() && Model() == old(Model())[k := v]
      ensures cap == if (old(len) + 1) * 10 < old(cap) * 7 then old(cap) else 2 * old(cap)
      ensures old(NoTombs(states[..])) ==> NoTombs(states[..])
      ensures (keys == old(keys) && vals == old(vals) && states == old(states))
           || (fresh(keys) && fresh(vals) && fresh(states))
    {
      hide TableInv;
      var i, existed := Upsert(k);
      Store(k, i, v);
    }

    /** A slot hint is trusted only if the slot really holds the key. */
    predicate HintHolds(slot: nat, k: nat)
      reads this, keys, states
      requires keys.Length == states.Length == cap
    {
      slot < cap && states[slot] == Occupied && keys[slot] == k
    }

    /** `jello_object_set_slot`: with a good hint no search is needed. */
    method SetSlot(slot: nat, k: nat) returns (i: nat, existed: bool)
      requires Valid() && cap <= 0x2000_0000 && (HintHolds(slot, k) || InsertStops(k))
      modifies this, keys, vals, states
      ensures proto == old(proto)
      ensures Valid() && k in pos && i == pos[k]
      ensures existed <==> k in old(pos)
      ensures Model() == if existed then old(Model()) else old(Model())[k := Null]
      ensures old(NoTombs(states[..])) ==> NoTombs(states[..])
    {
      if HintHolds(slot, k) {
        FoundAtPos(hash, keys[..], states[..], pos, k, slot);
        return slot, true;
      }
      i, existed := Upsert(k);
    }

    /** `jello_object_has`. */
    method Has(k: nat) returns (found: bool)
      requires Valid() && LookupStops(k)
      modifies `icAtom, `icSlot, `icCap, `icPolyAtom, `icPolySlot
      ensures Valid() && Model() == old(Model()) && (found <==> k in Model())
    {
      hide TableInv;
      var i;
      found, i := FindOccupiedSlot(k);
    }

    /** `jello_object_slot`, read through: the value of a key if present. */
    method Slot(k: nat) returns (v: Option<Value>)
      requires Valid() && LookupStops(k)
      modifies `icAtom, `icSlot, `icCap, `icPolyAtom, `icPolySlot
      ensures Valid() && Model() == old(Model())
      ensures v == if k in Model() then Some(Model()[k]) else None
    {
      hide TableInv;
      var found, i := FindOccupiedSlot(k);
      PositionsInRange();
      v := if found then Some(vals[i]) else None;
    }

    /** `jello_object_get`: a missing key reads as null. */
    method Get(k: nat) returns (v: Value)
      requires Valid() && LookupStops(k)
      modifies `icAtom, `icSlot, `icCap, `icPolyAtom, `icPolySlot
      ensures Valid() && Model() == old(Model())
      ensures v == if k in Model() then Model()[k] else Null
    {
      var o := Slot(k);
      v := if o.Some? then o.value else Null;
    }

    /** `jello_object_get_slot`: any hint, good or stale, gives the answer of `Get`. */
    method GetSlot(slot: nat, k: nat) returns (v: Value)
      requires Valid() && (HintHolds(slot, k) || LookupStops(k))
      modifies `icAtom, `icSlot, `icCap, `icPolyAtom, `icPolySlot
      ensures Valid() && Model() == old(Model())
      ensures v == if k in Model() then Model()[k] else Null
    {
      if HintHolds(slot, k) {
        FoundAtPos(hash, keys[..], states[..], pos, k, slot);
        return vals[slot];
      }
      v := Get(k);
    }

    /** Turn the slot of a key into a tombstone. */
    method Bury(k: nat, i: nat)
      requires Valid() && k in pos && i == pos[k]
      modifies `len, `pos, states
      ensures Valid() && pos == old(pos) - {k} && states[..] == old(states[..])[old(pos)[k] := Tomb]
    {
      hide PathClear, Home, IsCap;
      RemoveKeepsInv(hash, keys[..], states[..], pos, k);
      states[i] := Tomb;
      assert states[..] == old(states[..])[i := Tomb];
      hide TableInv;
      assert pos.Keys == (pos - {k}).Keys + {k};
      len := len - 1;
      pos := pos - {k};
    }

    /** `jello_object_remove`. */
    method Remove(k: nat) returns (removed: bool)
      requires Valid() && ProbeStops(k)
      modifies this, states
      ensures proto == old(proto)
      ensures Valid() && Model() == old(Model()) - {k} && (removed <==> k in old(Model()))
      ensures keys == old(keys) && vals == old(vals) && states == old(states) && cap == old(cap)
      ensures removed ==> states[..] == old(states[..])[old(pos)[k] := Tomb]
      ensures !removed ==> states[..] == old(states[..])
    {
      hide TableInv, PathClear, Home, IsCap;
      var i;
      removed, i := FindSlot(k);
      if !removed { return; }
      Bury(k, i);
      if icAtom == k && icCap == cap && icSlot == i { InvalidateIc(); }
    }

    /** `memset` over the slot states. */
    method EraseStates()
      modifies states
      ensures forall i :: 0 <= i < states.Length ==> states[i] == Empty
    {
      forall i | 0 <= i < states.Length { states[i] := Empty; }
    }

    /** `jello_object_clear`. */
    method Clear()
      requires Valid()
      modifies this, states
      ensures proto == old(proto)
      ensures Valid() && Model() == map[] && NoTombs(states[..]) && HasEmpty(states[..])
      ensures keys == old(keys) && vals == old(vals) && states == old(states) && cap == old(cap)
    {
      hide PathClear, Home, IsCap;
      EraseStates();
      EmptyTableInv(hash, keys[..], states[..]);
      hide TableInv;
      assert states[..][0] == Empty;
      len, pos := 0, map[];
      InvalidateIc();
    }
  }

  lemma {:induction false} CapGap(a: nat, b: nat)
    requires IsCap(a) && IsCap(b) && a < b
    ensures 2 * a <= b
    decreases b
  {
    if a > INIT_CAP {
      CapGap(a / 2, b / 2);
    } else {
      CapPositive(b / 2);
    }
  }

  /** One round of the loop in `jello_object_copy`. */
  method CopySlot(dst: Object, keys: seq<nat>, vals: seq<Value>, states: seq<Slot>,
                  ghost pos: map<nat, nat>, ghost cap: nat, i: nat)
    requires i < |keys| == |vals| == |states| && TableInv(dst.hash, keys, states, pos)
    requires dst.Valid() && NoTombs(dst.states[..]) && dst.cap <= cap
    requires IsCap(cap) && cap <= 0x2000_0000 && |pos| * 10 < cap * 7
    requires dst.Model() == PartOf(keys, vals, states, i)
    modifies dst, dst.keys, dst.vals, dst.states
    ensures dst.Valid() && dst.Model() == PartOf(keys, vals, states, i + 1) && dst.proto == old(dst.proto)
    ensures NoTombs(dst.states[..]) && dst.cap <= cap
    ensures (dst.keys == old(dst.keys) && dst.vals == old(dst.vals) && dst.states == old(dst.states))
         || (fresh(dst.keys) && fresh(dst.vals) && fresh(dst.states))
  {
    hide TableInv, PathClear, Home, IsCap, ModelOf;
    if states[i] == Occupied {
      NextPart(dst.hash, keys, vals, states, pos, i);
      CopyOne(dst, keys[i], vals[i], |pos|, cap);
    }
  }

  /** Copying a field that the destination does not have yet; `count` fields fit in `cap` slots. */
  method CopyOne(dst: Object, k: nat, v: Value, ghost count: nat, ghost cap: nat)
    requires dst.Valid() && NoTombs(dst.states[..]) && dst.cap <= cap
    requires k !in dst.Model() && |dst.Model()| < count
    requires IsCap(cap) && cap <= 0x2000_0000 && count * 10 < cap * 7
    modifies dst, dst.keys, dst.vals, dst.states
    ensures dst.Valid() && dst.Model() == old(dst.Model())[k := v] && dst.proto == old(dst.proto)
    ensures NoTombs(dst.states[..]) && dst.cap <= cap
    ensures (dst.keys == old(dst.keys) && dst.vals == old(dst.vals) && dst.states == old(dst.states))
         || (fresh(dst.keys) && fresh(dst.vals) && fresh(dst.states))
  {
    hide TableInv, PathClear, Home, IsCap;
    assert dst.Model().Keys == dst.pos.Keys;
    EmptyWithoutTombs(dst.hash, dst.keys[..], dst.states[..], dst.pos);
    if (dst.len + 1) * 10 >= dst.cap * 7 { CapGap(dst.cap, cap); }
    dst.Set(k, v);
  }

  /** The load check of `ensure_cap` in 32 bits means what it says. */
  predicate CheckAgrees(len: nat, cap: nat) {
    (len + 1) * 10 % U32 < cap * 7 % U32 <==> (len + 1) * 10 < cap * 7
  }

  /** For 32-bit capacities it does for every load below the limit if and only if the capacity is at most 2^29:
      from 2^30 on seven times the capacity wraps around. */
  lemma LoadCheckExact(cap: nat)
    requires IsCap(cap) && cap < U32
    ensures (forall len: nat :: len * 10 < cap * 7 ==> CheckAgrees(len, cap)) <==> cap <= 0x2000_0000
  {
    hide IsCap;
    if cap <= 0x2000_0000 {
      forall len: nat | len * 10 < cap * 7
        ensures CheckAgrees(len, cap)
      {
        assert (len + 1) * 10 < U32 && cap * 7 < U32;
      }
    } else {
      LargeCaps();
      CapGap(0x2000_0000, cap);
      if cap > 0x4000_0000 {
        CapGap(0x4000_0000, cap);
        NextCap(cap);
        assert !CheckAgrees(0x0CCC_CCCC, cap);
      } else {
        assert !CheckAgrees(0x1333_3333, cap);
      }
    }
  }

  lemma NextCap(cap: nat)
    requires IsCap(cap) && 0x8000_0000 <= cap < U32
    ensures cap == 0x8000_0000
  {
    LargeCaps();
    if cap > 0x8000_0000 {
      CapGap(0x8000_0000, cap);
    }
  }

  lemma LargeCaps()
    ensures IsCap(0x2000_0000) && IsCap(0x4000_0000) && IsCap(0x8000_0000)
  {
    Times16(0x8);
    Times16(0x80);
    Times16(0x800);
    Times16(0x8000);
    Times16(0x8_0000);
    Times16(0x80_0000);
    Times16(0x800_0000);
    CapPositive(0x800_0000);
    CapPositive(0x1000_0000);
    CapPositive(0x2000_0000);
    CapPositive(0x4000_0000);
  }

  lemma Times16(cap: nat)
    requires IsCap(cap)
    ensures IsCap(16 * cap)
  {
    CapPositive(cap);
    CapPositive(2 * cap);
    CapPositive(4 * cap);
    CapPositive(8 * cap);
  }

  lemma CapPositive(cap: nat)
    requires IsCap(cap)
    ensures cap >= INIT_CAP && IsCap(2 * cap)
  {
    assert 2 * cap / 2 == cap;
  }

  /** `jello_object_copy`: the same fields and prototype in a table of its own, which never needs more
      slots than the source has. */
  method Copy(src: Object) returns (dst: Object)
    requires src.Valid() && src.cap <= 0x2000_0000
    ensures fresh(dst) && fresh(dst.keys) && fresh(dst.vals) && fresh(dst.states)
    ensures dst.Valid() && dst.Model() == src.Model() && dst.proto == src.proto
    ensures NoTombs(dst.states[..]) && dst.cap <= src.cap
  {
    hide TableInv, PathClear, Home, IsCap, ModelOf;
    dst := new Object(src.hash);
    var keys, vals, states := src.keys[..], src.vals[..], src.states[..];
    ghost var pos, cap := src.pos, src.cap;
    CapPositive(cap);
    var i := 0;
    while i < |keys|
      invariant 0 <= i <= |keys|
      invariant fresh(dst.keys) && fresh(dst.vals) && fresh(dst.states)
      invariant dst.Valid() && NoTombs(dst.states[..]) && dst.cap <= cap
      invariant dst.Model() == PartOf(keys, vals, states, i)
    {
      CopySlot(dst, keys, vals, states, pos, cap, i);
      i := i + 1;
    }
    WholeTable(src.hash, keys, vals, states, pos);
    dst.proto := src.proto;
  }

  /** Removals can use up the empty slots, since `ensure_cap` does not count tombstones: eight keys with
      different home slots, each added and removed, leave a table of eight tombstones that never grows.
      With one key in it, the probe for any other key goes around forever. */
  method FillWithTombs(hash: Hash, ks: seq<nat>) returns (o: Object)
    requires |ks| == 8 && forall j :: 0 <= j < 8 ==> Home(hash, ks[j], 8) == j
    ensures o.Valid() && o.cap == 8 && o.Model() == map[ks[0] := Null] && !HasEmpty(o.states[..])
    ensures forall k :: k != ks[0] ==> !ProbeEnds(o.hash, o.keys[..], o.states[..], k)
  {
    hide TableInv, PathClear, IsCap;
    o := new Object(hash);
    var j := 0;
    while j < 8
      invariant 0 <= j <= 8 && o.Valid() && o.Model() == map[] && o.len == 0 && o.cap == 8 && o.hash == hash
      invariant fresh(o) && fresh(o.keys) && fresh(o.vals) && fresh(o.states)
      invariant forall t :: 0 <= t < 8 ==> o.states[t] == if t < j then Tomb else Empty
    {
      AddAndRemove(o, ks[j]);
      j := j + 1;
    }
    var i, existed := o.Upsert(ks[0]);
    forall k | k != ks[0] ensures !ProbeEnds(o.hash, o.keys[..], o.states[..], k) {
      assert k !in o.Model();
      ProbeEndsIff(o.hash, o.keys[..], o.states[..], o.pos, k);
    }
  }

  method AddAndRemove(o: Object, k: nat)
    requires o.Valid() && o.len == 0 && o.cap == 8
    modifies o, o.keys, o.vals, o.states
    ensures o.Valid() && o.Model() == map[] && o.len == 0 && o.cap == 8
    ensures o.states[..] == old(o.states[..])[Home(o.hash, k, 8) := Tomb]
    ensures o.keys == old(o.keys) && o.vals == old(o.vals) && o.states == old(o.states)
  {
    hide TableInv, PathClear, IsCap, Home, ModelOf;
    o.PositionsInRange();
    ModelKeys(o.vals[..], o.pos);
    var i, existed := o.Upsert(k);
    var removed := o.Remove(k);
    o.PositionsInRange();
    ModelKeys(o.vals[..], o.pos);
  }
}
