/** Linked lists of heap blocks, and what their members add up to (src/gc.c). */
module GcLists {
  import opened GcGraph

  /** The list that starts at `head` consists of the objects of `s`, in order. */
  ghost predicate Linked(head: Obj?, s: seq<Obj>)
    reads ToSet(s)`next
  {
    && head == First(s)
    && forall i :: 0 <= i < |s| ==> s[i].next == After(s, i)
  }

  ghost function After(s: seq<Obj>, i: nat): Obj?
    requires i < |s|
  {
    if i + 1 < |s| then s[i + 1] else null
  }

  ghost function First(s: seq<Obj>): Obj? {
    if |s| == 0 then null else s[0]
  }

  ghost function Last(s: seq<Obj>): Obj? {
    if |s| == 0 then null else s[|s| - 1]
  }

  /** The link of a member leads to the rest of the list. */
  lemma LinksFrom(head: Obj?, s: seq<Obj>, i: nat)
    requires Linked(head, s) && i < |s|
    ensures s[i].next == First(s[i + 1..])
  {
    assert i + 1 < |s| ==> s[i + 1..][0] == s[i + 1];
  }

  lemma NoDupMid(a: seq<Obj>, h: Obj, b: seq<Obj>)
    requires NoDup(a + [h] + b)
    ensures NoDup(a + b) && NoDup(a) && NoDup(b) && h !in a && h !in b
    ensures ToSet(a + [h] + b) == ToSet(a + b) + {h}
  {
    var s, t := a + [h] + b, a + b;
    assert s[|a|] == h;
    assert forall i :: 0 <= i < |a| ==> s[i] == a[i];
    assert forall i :: 0 <= i < |b| ==> s[|a| + 1 + i] == b[i];
    forall i, j | 0 <= i < j < |t|
      ensures t[i] != t[j]
    {
      var i', j' := if i < |a| then i else i + 1, if j < |a| then j else j + 1;
      assert s[i'] == t[i] && s[j'] == t[j];
    }
  }

  lemma NoDupPush(h: Obj, s: seq<Obj>)
    requires NoDup(s) && h !in s
    ensures NoDup([h] + s)
  {
  }

  /** The list that results when the link in front of `h` is moved past it. */
  lemma LinkedAgain(before: seq<Obj>, kept: seq<Obj>, h: Obj, rest: seq<Obj>, head: Obj?)
    requires before == kept + [h] + rest
    requires forall i :: 0 <= i < |before| && i != |kept| - 1 ==> before[i].next == After(before, i)
    requires |kept| > 0 ==> kept[|kept| - 1].next == First(rest)
    requires head == if |kept| > 0 then before[0] else First(rest)
    ensures Linked(head, kept + rest)
  {
    var s := kept + rest;
    forall i | 0 <= i < |s|
      ensures s[i].next == After(s, i)
    {
      var j := if i < |kept| then i else i + 1;
      assert before[j] == s[i];
    }
  }

  lemma LastIn(kept: seq<Obj>, h: Obj, rest: seq<Obj>)
    ensures Last(kept) != null ==> Last(kept) in ToSet(kept + [h] + rest)
  {
    if |kept| > 0 {
      assert (kept + [h] + rest)[|kept| - 1] == Last(kept);
    }
  }

  /** `*link = next`, where `link` is the head of the list or the field in `prev`: takes `h` out. */
  method Splice(head: Obj?, prev: Obj?, next: Obj?, ghost kept: seq<Obj>, ghost h: Obj, ghost rest: seq<Obj>)
    returns (head': Obj?)
    requires Linked(head, kept + [h] + rest) && NoDup(kept + [h] + rest)
    requires prev == Last(kept) && next == First(rest)
    modifies PtrRef(prev)`next
    ensures Linked(head', kept + rest)
    ensures prev != null ==> prev.next == next
  {
    ghost var before := kept + [h] + rest;
    assert prev != null ==> prev == before[|kept| - 1];
    assert forall j :: 0 <= j < |before| && j != |kept| - 1 ==> before[j] != prev;
    if prev == null {
      head' := next;
    } else {
      prev.next := next;
      head' := head;
    }
    LinkedAgain(before, kept, h, rest, head');
  }

  // ---- sums ------------------------------------------------------------------------------------------------

  ghost function Sum(s: seq<Obj>): nat {
    if |s| == 0 then 0 else Sum(s[..|s| - 1]) + s[|s| - 1].totalSize
  }

  lemma SumSnoc(s: seq<Obj>, o: Obj)
    ensures Sum(s + [o]) == Sum(s) + o.totalSize
  {
    assert (s + [o])[..|s|] == s;
  }

  /** What has to be given back once: separately allocated blocks, and finalizers that are still set. */
  datatype Res = Block(n: nat) | Finalizer(handle: nat)

  function Holds(p: Payload): multiset<Res> {
    match p
    case Array(data, block) => if |data| > 0 then multiset{Block(block)} else multiset{}
    case Object(proto, isInline, slots, block) => if isInline then multiset{} else multiset{Block(block)}
    case Abstract(handle, owned) => if owned then multiset{Finalizer(handle)} else multiset{}
    case _ => multiset{}
  }

  ghost function HoldsIn(g: Graph, o: Obj): multiset<Res> {
    if o in g then Holds(g[o]) else multiset{}
  }

  ghost function Held(s: seq<Obj>, g: Graph): multiset<Res> {
    if |s| == 0 then multiset{} else Held(s[..|s| - 1], g) + HoldsIn(g, s[|s| - 1])
  }

  lemma {:induction false} SumMid(a: seq<Obj>, h: Obj, b: seq<Obj>)
    ensures Sum(a + [h] + b) == Sum(a + b) + h.totalSize
    decreases |b|
  {
    if |b| == 0 {
      assert a + [h] + b == a + [h] && a + b == a && (a + [h])[..|a|] == a;
    } else {
      var n := |b| - 1;
      SumMid(a, h, b[..n]);
      assert (a + [h] + b)[..|a| + 1 + n] == a + [h] + b[..n];
      assert (a + b)[..|a| + n] == a + b[..n];
    }
  }

  lemma {:induction false} HeldMid(a: seq<Obj>, h: Obj, b: seq<Obj>, g: Graph)
    ensures Held(a + [h] + b, g) == Held(a + b, g) + HoldsIn(g, h)
    decreases |b|
  {
    hide Holds, HoldsIn;
    if |b| == 0 {
      assert a + [h] + b == a + [h] && a + b == a && (a + [h])[..|a|] == a;
    } else {
      var n := |b| - 1;
      assert (a + [h] + b)[..|a| + 1 + n] == a + [h] + b[..n];
      assert (a + b)[..|a| + n] == a + b[..n];
      HeldMid(a, h, b[..n], g);
      var x, y, z := Held(a + b[..n], g), HoldsIn(g, h), HoldsIn(g, b[n]);
      assert (x + y) + z == (x + z) + y;
    }
  }

  /** What one member holds is part of the total. */
  lemma {:induction false} HeldHas(s: seq<Obj>, g: Graph, i: nat)
    requires i < |s|
    ensures HoldsIn(g, s[i]) <= Held(s, g)
    decreases |s|
  {
    hide HoldsIn;
    if i < |s| - 1 {
      HeldHas(s[..|s| - 1], g, i);
    }
  }

  /** The total does not depend on objects outside the list. */
  lemma {:induction false} HeldSame(s: seq<Obj>, g: Graph, g': Graph)
    requires forall o :: o in s ==> HoldsIn(g, o) == HoldsIn(g', o)
    ensures Held(s, g) == Held(s, g')
    decreases |s|
  {
    if |s| > 0 {
      var n := |s| - 1;
      assert s[n] in s;
      HeldSame(s[..n], g, g');
    }
  }

  // ---- survivors -------------------------------------------------------------------------------------------

  /** The members of a list that are kept, in order. */
  ghost function Filter(s: seq<Obj>, keep: set<Obj>): seq<Obj> {
    if |s| == 0 then []
    else
      var n := |s| - 1;
      if s[n] in keep then Filter(s[..n], keep) + [s[n]] else Filter(s[..n], keep)
  }

  lemma {:induction false} FilterMembers(s: seq<Obj>, keep: set<Obj>)
    ensures ToSet(Filter(s, keep)) == ToSet(s) * keep
    decreases |s|
  {
    if |s| > 0 {
      var n := |s| - 1;
      FilterMembers(s[..n], keep);
      assert s == s[..n] + [s[n]];
      ToSetAppend(s[..n], [s[n]]);
      ToSetAppend(Filter(s[..n], keep), [s[n]]);
    }
  }

  lemma FilterNext(s: seq<Obj>, keep: set<Obj>, i: nat)
    requires i < |s|
    ensures Filter(s[..i + 1], keep) == if s[i] in keep then Filter(s[..i], keep) + [s[i]] else Filter(s[..i], keep)
  {
    assert s[..i + 1][..i] == s[..i];
  }
}
