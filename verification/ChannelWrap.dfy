/** What the 32-bit wrap-around of `head` and `tail` does to the order of messages. */
module ChannelWrap {
  import opened Arith
  import opened Base
  import opened ChannelCell
  import opened ChannelSpec

  ghost predicate FifoInEveryRun(cap: nat) {
    forall tr: seq<Chan>, ls: seq<Label>, k: nat :: IsRun(cap, tr, ls) && k < |tr| ==> Fifo(tr[k].ring)
  }

  function Nulls(n: nat): seq<Cell> {
    seq(n, i => CellNull)
  }

  predicate Quiet(s: Chan) {
    !s.closed && s.recv == Waiters({}, {}) && s.send == Waiters({}, {}) && s.pending == map[]
  }

  /** The state after `n` messages have passed through one by one. */
  function Pumped(cap: nat, n: nat): Chan {
    Empty(cap).(ring := Ring(cap, n % U32, n % U32, 0, Nulls(cap), Nulls(n), Nulls(n)))
  }

  lemma Extend(cap: nat, tr: seq<Chan>, ls: seq<Label>, s': Chan, l: Label)
    requires IsRun(cap, tr, ls) && Next(tr[|tr| - 1], s', l)
    ensures IsRun(cap, tr + [s'], ls + [l])
  {
    var tr', ls' := tr + [s'], ls + [l];
    forall i | 0 <= i < |ls'| ensures Next(tr'[i], tr'[i + 1], ls'[i]) {
      if i < |ls| { assert Next(tr[i], tr[i + 1], ls[i]); }
    }
  }

  lemma PumpOnce(cap: nat, n: nat)
    requires cap > 0
    ensures var s := AfterSend(Pumped(cap, n), 0, CellNull, {});
            && Next(Pumped(cap, n), s, LSend(0, CellNull, {}))
            && Next(s, Pumped(cap, n + 1), LRecv(0, false, {}))
  {
    var s := AfterSend(Pumped(cap, n), 0, CellNull, {});
    ModAdd(n, 1, U32);
    assert s.ring.cells == Nulls(cap);
    assert s.pending == map[];
    var s' := AfterRecv(s, 0, false, {});
    assert s'.ring.cells == Nulls(cap);
    assert s'.ring.taken == Nulls(n + 1) && s'.ring.accepted == Nulls(n + 1);
    assert s' == Pumped(cap, n + 1);
  }

  lemma {:induction false} Pump(cap: nat, n: nat) returns (tr: seq<Chan>, ls: seq<Label>)
    requires cap > 0
    ensures IsRun(cap, tr, ls) && tr[|tr| - 1] == Pumped(cap, n)
    decreases n
  {
    if n == 0 {
      tr, ls := [Empty(cap)], [];
      assert Pumped(cap, 0) == Empty(cap);
    } else {
      tr, ls := Pump(cap, n - 1);
      PumpOnce(cap, n - 1);
      var s := AfterSend(Pumped(cap, n - 1), 0, CellNull, {});
      Extend(cap, tr, ls, s, LSend(0, CellNull, {}));
      tr, ls := tr + [s], ls + [LSend(0, CellNull, {})];
      Extend(cap, tr, ls, Pumped(cap, n), LRecv(0, false, {}));
      tr, ls := tr + [Pumped(cap, n)], ls + [LRecv(0, false, {})];
    }
  }

  /** With the counters one short of wrapping, `j` further sends, the first of them marked. */
  lemma {:induction false} Fill(cap: nat, j: nat) returns (tr: seq<Chan>, ls: seq<Label>)
    requires cap > 0 && 1 <= j <= cap && j < U32
    ensures IsRun(cap, tr, ls)
    ensures var r := tr[|tr| - 1].ring;
            && Quiet(tr[|tr| - 1]) && Sized(r) && r.cap == cap
            && r.count == j && r.head == U32 - 1 && r.tail == j - 1
            && |r.taken| == U32 - 1 && |r.accepted| == U32 - 1 + j
            && r.accepted[U32 - 1] == CellI32(1)
            && (j >= 2 ==> r.cells[(j - 2) % cap] == CellI32(2))
    decreases j
  {
    var m := CellI32(if j == 1 then 1 else 2);
    if j == 1 {
      tr, ls := Pump(cap, U32 - 1);
    } else {
      tr, ls := Fill(cap, j - 1);
    }
    var s := tr[|tr| - 1];
    var s' := AfterSend(s, 0, m, {});
    Extend(cap, tr, ls, s', LSend(0, m, {}));
    tr, ls := tr + [s'], ls + [LSend(0, m, {})];
    assert s'.pending == map[];
  }

  lemma LastCounterSlot(cap: nat)
    requires 0 < cap && U32 % cap != 0
    ensures 0 <= (U32 - 1) % cap <= cap - 2
  {
    if (U32 - 1) % cap == cap - 1 {
      Distribute((U32 - 1) / cap, 1, cap);
      DivModUnique(U32, (U32 - 1) / cap + 1, 0, cap);
    }
  }

  lemma Overwritten(r: Ring)
    requires Sized(r) && r.count > 0 && r.head == U32 - 1
    requires |r.taken| == U32 - 1 < |r.accepted| && r.accepted[U32 - 1] == CellI32(1)
    requires r.cells[(U32 - 1) % r.cap] == CellI32(2)
    ensures !Fifo(r)
  {
    var buffered := seq(r.count, i requires 0 <= i => r.cells[((r.head + i) % U32) % r.cap]);
    assert buffered[0] == CellI32(2);
    assert (r.taken + buffered)[U32 - 1] == buffered[0];
  }

  /** Otherwise the slot numbering jumps at the wrap and an unread message is overwritten. */
  lemma WrapLosesMessage(cap: nat) returns (tr: seq<Chan>, ls: seq<Label>)
    requires 0 < cap < U32 && U32 % cap != 0
    ensures IsRun(cap, tr, ls) && !Fifo(tr[|tr| - 1].ring)
  {
    LastCounterSlot(cap);
    var p := (U32 - 1) % cap;
    tr, ls := Fill(cap, p + 2);
    DivModUnique(p, 0, p, cap);
    Overwritten(tr[|tr| - 1].ring);
  }

  /** For every 32-bit capacity: all interleavings of all runs, however long, deliver messages in
      order if and only if the capacity divides 2^32. The default of 64 does. */
  lemma FifoIffCapDividesWrap(cap: nat)
    requires 0 < cap < U32
    ensures FifoInEveryRun(cap) <==> U32 % cap == 0
  {
    if U32 % cap == 0 {
      forall tr: seq<Chan>, ls: seq<Label>, k: nat | IsRun(cap, tr, ls) && k < |tr| ensures Fifo(tr[k].ring) {
        RunKeepsInv(cap, tr, ls, k);
        FifoByPosition(tr[k].ring);
      }
    } else {
      var tr, ls := WrapLosesMessage(cap);
      var last: nat := |tr| - 1;
      assert IsRun(cap, tr, ls) && last < |tr| && !Fifo(tr[last].ring);
    }
  }

  lemma DefaultCapIsSafe()
    ensures FifoInEveryRun(EffectiveCap(0))
  {
    FifoIffCapDividesWrap(64);
  }
}
