/** The open-addressing table of src/types/object.c as sequences: what the slots must look like for
    probing to find every key, and which updates keep it so. The results hold for any hash. */
module ProbeTable {
  import opened Arith

  datatype Slot = Empty | Occupied | Tomb

  type Hash = nat -> nat

  /** `hash & (cap - 1)`; capacities are powers of two. */
  function Home(hash: Hash, k: nat, cap: nat): (h: nat)
    requires cap > 0
    ensures h < cap
  {
    hash(k) % cap
  }

  /** The slot a probe looks at after `d` steps, for `d` up to `cap`. */
  function ProbeAt(h: nat, d: nat, cap: nat): (i: nat)
    requires h < cap && d < cap
    ensures i < cap
  {
    if h + d < cap then h + d else h + d - cap
  }

  /** How many steps a probe takes from `h` to slot `i`. */
  function Steps(h: nat, i: nat, cap: nat): (d: nat)
    requires h < cap && i < cap
    ensures d < cap && ProbeAt(h, d, cap) == i
  {
    if h <= i then i - h else i + cap - h
  }

  lemma StepsOfProbe(h: nat, d: nat, cap: nat)
    requires h < cap && d < cap
    ensures Steps(h, ProbeAt(h, d, cap), cap) == d
  {
  }

  /** A probe for `k` passes every slot before `i` without meeting an empty one. */
  ghost predicate PathClear(hash: Hash, states: seq<Slot>, k: nat, i: nat)
    requires i < |states|
  {
    var cap := |states|;
    forall j :: 0 <= j < cap && Steps(Home(hash, k, cap), j, cap) < Steps(Home(hash, k, cap), i, cap)
      ==> states[j] != Empty
  }

  /** `pos` says where each key is: the occupied slots are exactly the positions of the keys, and every
      key can be reached by probing. */
  ghost predicate TableInv(hash: Hash, keys: seq<nat>, states: seq<Slot>, pos: map<nat, nat>) {
    && |keys| == |states| > 0
    && (forall k :: k in pos ==> pos[k] < |states| && states[pos[k]] == Occupied && keys[pos[k]] == k)
    && (forall i :: 0 <= i < |states| && states[i] == Occupied ==> keys[i] in pos && pos[keys[i]] == i)
    && (forall k :: k in pos ==> PathClear(hash, states, k, pos[k]))
  }

  ghost predicate HasEmpty(states: seq<Slot>) {
    exists i :: 0 <= i < |states| && states[i] == Empty
  }

  ghost predicate NoTombs(states: seq<Slot>) {
    forall i :: 0 <= i < |states| ==> states[i] != Tomb
  }

  lemma EmptyTableInv(hash: Hash, keys: seq<nat>, states: seq<Slot>)
    requires |keys| == |states| > 0 && forall i :: 0 <= i < |states| ==> states[i] != Occupied
    ensures TableInv(hash, keys, states, map[])
  {
  }

  lemma InsertKeepsInv(hash: Hash, keys: seq<nat>, states: seq<Slot>, pos: map<nat, nat>, k: nat, i: nat)
    requires TableInv(hash, keys, states, pos) && k !in pos
    requires i < |states| && states[i] != Occupied && PathClear(hash, states, k, i)
    ensures TableInv(hash, keys[i := k], states[i := Occupied], pos[k := i])
  {
    hide Home, Steps;
    var keys', states', pos' := keys[i := k], states[i := Occupied], pos[k := i];
    forall k' | k' in pos' ensures PathClear(hash, states', k', pos'[k']) {
      if k' != k { assert PathClear(hash, states, k', pos[k']); }
    }
  }

  lemma RemoveKeepsInv(hash: Hash, keys: seq<nat>, states: seq<Slot>, pos: map<nat, nat>, k: nat)
    requires TableInv(hash, keys, states, pos) && k in pos
    ensures TableInv(hash, keys, states[pos[k] := Tomb], pos - {k})
  {
    hide Home, Steps;
    var states', pos' := states[pos[k] := Tomb], pos - {k};
    forall k' | k' in pos' ensures PathClear(hash, states', k', pos'[k']) {
      assert PathClear(hash, states, k', pos[k']);
    }
  }

  // ---- counting ------------------------------------------------------------------------------------------

  function CountOccupied(states: seq<Slot>): nat {
    if |states| == 0 then 0
    else CountOccupied(states[..|states| - 1]) + (if states[|states| - 1] == Occupied then 1 else 0)
  }

  /** The keys of the occupied slots below `n`. */
  function KeysBelow(keys: seq<nat>, states: seq<Slot>, n: nat): set<nat>
    requires n <= |keys| == |states|
  {
    set i | 0 <= i < n && states[i] == Occupied :: keys[i]
  }

  ghost predicate DistinctKeys(keys: seq<nat>, states: seq<Slot>)
    requires |keys| == |states|
  {
    forall i, j :: 0 <= i < j < |states| && states[i] == Occupied && states[j] == Occupied ==> keys[i] != keys[j]
  }

  lemma {:induction false} KeysBelowCount(keys: seq<nat>, states: seq<Slot>, n: nat)
    requires n <= |keys| == |states| && DistinctKeys(keys, states)
    ensures |KeysBelow(keys, states, n)| == CountOccupied(states[..n])
    decreases n
  {
    if n > 0 {
      KeysBelowCount(keys, states, n - 1);
      assert states[..n][..n - 1] == states[..n - 1];
      var s := KeysBelow(keys, states, n - 1);
      if states[n - 1] == Occupied {
        assert keys[n - 1] !in s;
        assert KeysBelow(keys, states, n) == s + {keys[n - 1]};
      } else {
        assert KeysBelow(keys, states, n) == s;
      }
    }
  }

  /** The number of keys is the number of occupied slots. */
  lemma KeysAreOccupiedSlots(hash: Hash, keys: seq<nat>, states: seq<Slot>, pos: map<nat, nat>)
    requires TableInv(hash, keys, states, pos)
    ensures |pos| == CountOccupied(states)
  {
    KeysBelowCount(keys, states, |states|);
    assert states[..|states|] == states;
    assert KeysBelow(keys, states, |states|) == pos.Keys by {
      forall k | k in pos ensures k in KeysBelow(keys, states, |states|) {
        assert keys[pos[k]] == k;
      }
    }
  }

  lemma {:induction false} AllOccupiedCount(states: seq<Slot>)
    requires forall i :: 0 <= i < |states| ==> states[i] == Occupied
    ensures CountOccupied(states) == |states|
    decreases |states|
  {
    if |states| > 0 { AllOccupiedCount(states[..|states| - 1]); }
  }

  /** Without tombstones, fewer keys than slots leave an empty slot. */
  lemma EmptyWithoutTombs(hash: Hash, keys: seq<nat>, states: seq<Slot>, pos: map<nat, nat>)
    requires TableInv(hash, keys, states, pos) && NoTombs(states) && |pos| < |states|
    ensures HasEmpty(states)
  {
    if !HasEmpty(states) {
      AllOccupiedCount(states);
      KeysAreOccupiedSlots(hash, keys, states, pos);
    }
  }

  // ---- when a probe stops ------------------------------------------------------------------------------------

  /** A probe for `k` ends at slot `i`: found, or known to be absent. */
  predicate IsStop(keys: seq<nat>, states: seq<Slot>, k: nat, i: nat)
    requires i < |keys| == |states|
  {
    states[i] == Empty || (states[i] == Occupied && keys[i] == k)
  }

  /** The slot the probe loop looks at after `d` steps, however often it has gone around. */
  function LoopIndex(hash: Hash, k: nat, cap: nat, d: nat): (i: nat)
    requires cap > 0
    ensures i < cap
  {
    (Home(hash, k, cap) + d) % cap
  }

  /** The probe for `k` ends after some number of steps. */
  ghost predicate ProbeEnds(hash: Hash, keys: seq<nat>, states: seq<Slot>, k: nat)
    requires |keys| == |states| > 0
  {
    exists d: nat :: IsStop(keys, states, k, LoopIndex(hash, k, |keys|, d))
  }

  lemma LoopReaches(hash: Hash, k: nat, cap: nat, i: nat) returns (d: nat)
    requires i < cap
    ensures d < cap && LoopIndex(hash, k, cap, d) == i
  {
    hide Home;
    d := Steps(Home(hash, k, cap), i, cap);
    DivModUnique(i, 0, i, cap);
    DivModUnique(i + cap, 1, i, cap);
  }

  /** The probe loop ends if and only if the key is there or some slot is empty, and then it takes less
      than `cap` steps. */
  lemma ProbeEndsIff(hash: Hash, keys: seq<nat>, states: seq<Slot>, pos: map<nat, nat>, k: nat)
    requires TableInv(hash, keys, states, pos)
    ensures ProbeEnds(hash, keys, states, k) <==> k in pos || HasEmpty(states)
    ensures ProbeEnds(hash, keys, states, k) ==>
              exists d: nat :: d < |keys| && IsStop(keys, states, k, LoopIndex(hash, k, |keys|, d))
  {
    hide LoopIndex;
    if k in pos {
      var d := LoopReaches(hash, k, |keys|, pos[k]);
      assert IsStop(keys, states, k, LoopIndex(hash, k, |keys|, d));
    } else if HasEmpty(states) {
      var i :| 0 <= i < |states| && states[i] == Empty;
      var d := LoopReaches(hash, k, |keys|, i);
      assert IsStop(keys, states, k, LoopIndex(hash, k, |keys|, d));
    }
  }

  // ---- the probe loop ----------------------------------------------------------------------------------------

  /** The first `d` slots on the path of `k` are no stops. */
  ghost predicate Passed(hash: Hash, keys: seq<nat>, states: seq<Slot>, k: nat, d: nat)
    requires |keys| == |states| > 0
  {
    var h := Home(hash, k, |keys|);
    forall j :: 0 <= j < |keys| && Steps(h, j, |keys|) < d ==>
      states[j] != Empty && !(states[j] == Occupied && keys[j] == k)
  }

  lemma NothingPassed(hash: Hash, keys: seq<nat>, states: seq<Slot>, k: nat)
    requires |keys| == |states| > 0
    ensures Passed(hash, keys, states, k, 0) && ProbeAt(Home(hash, k, |keys|), 0, |keys|) == Home(hash, k, |keys|)
  {
  }

  lemma PassOne(hash: Hash, keys: seq<nat>, states: seq<Slot>, k: nat, d: nat)
    requires |keys| == |states| > 0 && d < |keys| && Passed(hash, keys, states, k, d)
    requires !IsStop(keys, states, k, ProbeAt(Home(hash, k, |keys|), d, |keys|))
    ensures Passed(hash, keys, states, k, d + 1)
  {
    hide Home;
  }

  lemma PassedEverything(hash: Hash, keys: seq<nat>, states: seq<Slot>, pos: map<nat, nat>, k: nat)
    requires TableInv(hash, keys, states, pos) && Passed(hash, keys, states, k, |keys|)
    ensures k !in pos && !HasEmpty(states)
  {
    hide Home;
    forall j | 0 <= j < |keys| ensures states[j] != Empty && !(states[j] == Occupied && keys[j] == k) {
      assert Steps(Home(hash, k, |keys|), j, |keys|) < |keys|;
    }
  }

  /** Meeting an empty slot proves the key absent; the slot, and every one passed before it, is within
      reach of the key. */
  lemma EmptyEndsProbe(hash: Hash, keys: seq<nat>, states: seq<Slot>, pos: map<nat, nat>, k: nat, d: nat)
    requires TableInv(hash, keys, states, pos) && d < |keys| && Passed(hash, keys, states, k, d)
    requires states[ProbeAt(Home(hash, k, |keys|), d, |keys|)] == Empty
    ensures k !in pos
    ensures forall t :: 0 <= t < |keys| && Steps(Home(hash, k, |keys|), t, |keys|) <= d ==>
              PathClear(hash, states, k, t)
  {
    hide Home;
    var h := Home(hash, k, |keys|);
    if k in pos {
      assert PathClear(hash, states, k, pos[k]);
      StepsOfProbe(h, d, |keys|);
    }
  }

  lemma FoundAtPos(hash: Hash, keys: seq<nat>, states: seq<Slot>, pos: map<nat, nat>, k: nat, i: nat)
    requires TableInv(hash, keys, states, pos) && i < |keys| && states[i] == Occupied && keys[i] == k
    ensures k in pos && pos[k] == i
  {
  }
}
