/** The bounded channel of src/thread/channel.c as a state machine.

    Every thread runs critical sections of `jello_channel_send`, `channel_recv_locked` and
    `jello_channel_close`. A section starts when the mutex is obtained (on entry, or again after
    a wake-up) and ends when it is given up (on return, or when the thread goes to sleep on a
    condition variable). Sections are atomic; their interleaving is arbitrary. */
module ChannelSpec {
  import opened Arith
  import opened Base
  import opened ChannelCell

  type Tid = nat

  /** The ring buffer, with the history of what went in and what came out. `head` and `tail` are
      32-bit counters that wrap around; a slot is found as counter modulo capacity. */
  datatype Ring = Ring(cap: nat, head: nat, tail: nat, count: nat, cells: seq<Cell>,
                       accepted: seq<Cell>, taken: seq<Cell>)

  /** The waiters of a condition variable: asleep until signalled, then awake until they hold the
      mutex again. */
  datatype Waiters = Waiters(asleep: set<Tid>, awake: set<Tid>)

  /** `recv` waits on `not_empty` and `send` on `not_full`; `pending` holds the senders' messages. */
  datatype Chan = Chan(ring: Ring, closed: bool, recv: Waiters, send: Waiters, pending: map<Tid, Cell>)

  /** A capacity of zero means the default of 64. */
  function EffectiveCap(capacity: nat): (cap: nat)
    ensures cap > 0
  {
    if capacity == 0 then 64 else capacity
  }

  function Empty(cap: nat): Chan {
    Chan(Ring(cap, 0, 0, 0, seq(cap, i => CellNull), [], []), false, Waiters({}, {}), Waiters({}, {}), map[])
  }

  // ---- ring ----------------------------------------------------------------------------------

  predicate Sized(r: Ring) {
    r.cap > 0 && |r.cells| == r.cap
  }

  function Put(r: Ring, m: Cell): Ring
    requires Sized(r)
  {
    r.(cells := r.cells[r.tail % r.cap := m], tail := (r.tail + 1) % U32, count := r.count + 1,
       accepted := r.accepted + [m])
  }

  function Front(r: Ring): Cell
    requires Sized(r)
  {
    r.cells[r.head % r.cap]
  }

  function Take(r: Ring): Ring
    requires Sized(r) && r.count > 0
  {
    r.(cells := r.cells[r.head % r.cap := CellNull], head := (r.head + 1) % U32, count := r.count - 1,
       taken := r.taken + [Front(r)])
  }

  // ---- waiters -------------------------------------------------------------------------------

  function Sleep(w: Waiters, t: Tid): Waiters {
    Waiters(w.asleep + {t}, w.awake - {t})
  }

  function Leave(w: Waiters, t: Tid): Waiters {
    Waiters(w.asleep, w.awake - {t})
  }

  function Wake(w: Waiters, woken: set<Tid>): Waiters {
    Waiters(w.asleep - woken, w.awake + woken)
  }

  /** What a condition signal may wake: any waiters at all, but at least one if there is one. */
  predicate IsSignal(w: Waiters, woken: set<Tid>) {
    woken <= w.asleep && (w.asleep != {} ==> woken != {})
  }

  // ---- critical sections ---------------------------------------------------------------------

  datatype SendOutcome = SendSlept | SendRefused | SendAccepted

  datatype RecvOutcome = RecvSlept | RecvNull | RecvGot(cell: Cell)

  function SendResult(s: Chan): SendOutcome {
    if s.closed then SendRefused else if s.ring.count >= s.ring.cap then SendSlept else SendAccepted
  }

  function RecvResult(s: Chan, block: bool): RecvOutcome
    requires Sized(s.ring)
  {
    if s.ring.count > 0 then RecvGot(Front(s.ring))
    else if block && !s.closed then RecvSlept
    else RecvNull
  }

  predicate IsIdle(s: Chan, t: Tid) {
    t !in s.recv.asleep && t !in s.recv.awake && t !in s.send.asleep && t !in s.send.awake
  }

  /** Thread `t` may run a section of `send(m)`: on entry, or with the message it fell asleep with. */
  predicate MaySend(s: Chan, t: Tid, m: Cell) {
    IsIdle(s, t) || (t in s.send.awake && t in s.pending && s.pending[t] == m)
  }

  /** Only a blocking receive ever waits. */
  predicate MayRecv(s: Chan, t: Tid, block: bool) {
    IsIdle(s, t) || (t in s.recv.awake && block)
  }

  function AfterSend(s: Chan, t: Tid, m: Cell, woken: set<Tid>): Chan
    requires Sized(s.ring)
  {
    match SendResult(s)
    case SendSlept => s.(send := Sleep(s.send, t), pending := s.pending[t := m])
    case SendRefused => s.(send := Leave(s.send, t), pending := s.pending - {t})
    case SendAccepted =>
      Chan(Put(s.ring, m), s.closed, Wake(s.recv, woken), Leave(s.send, t), s.pending - {t})
  }

  function AfterRecv(s: Chan, t: Tid, block: bool, woken: set<Tid>): Chan
    requires Sized(s.ring)
  {
    match RecvResult(s, block)
    case RecvSlept => s.(recv := Sleep(s.recv, t))
    case RecvNull => s.(recv := Leave(s.recv, t))
    case RecvGot(c) => Chan(Take(s.ring), s.closed, Leave(s.recv, t), Wake(s.send, woken), s.pending)
  }

  /** The first close wakes everybody; a later one changes nothing. */
  function AfterClose(s: Chan): Chan {
    if s.closed then s
    else Chan(s.ring, true, Wake(s.recv, s.recv.asleep), Wake(s.send, s.send.asleep), s.pending)
  }

  /** Condition waits may return without a signal. */
  ghost predicate SpuriousStep(s: Chan, s': Chan, t: Tid) {
    || (t in s.recv.asleep && s' == s.(recv := Wake(s.recv, {t})))
    || (t in s.send.asleep && s' == s.(send := Wake(s.send, {t})))
  }

  datatype Label =
    | LSend(t: Tid, m: Cell, woken: set<Tid>)
    | LRecv(t: Tid, block: bool, woken: set<Tid>)
    | LClose
    | LSpurious(t: Tid)

  ghost predicate Next(s: Chan, s': Chan, l: Label) {
    match l
    case LSend(t, m, woken) =>
      Sized(s.ring) && MaySend(s, t, m) && IsSignal(s.recv, woken) && s' == AfterSend(s, t, m, woken)
    case LRecv(t, block, woken) =>
      Sized(s.ring) && MayRecv(s, t, block) && IsSignal(s.send, woken) && s' == AfterRecv(s, t, block, woken)
    case LClose => s' == AfterClose(s)
    case LSpurious(t) => SpuriousStep(s, s', t)
  }

  /** The states of a run from the empty channel; each `ls[i]` leads from `tr[i]` to `tr[i+1]`. */
  ghost predicate IsRun(cap: nat, tr: seq<Chan>, ls: seq<Label>) {
    && |tr| == |ls| + 1
    && tr[0] == Empty(cap)
    && forall i :: 0 <= i < |ls| ==> Next(tr[i], tr[i + 1], ls[i])
  }

  // ---- waiters: no wake-up is lost -------------------------------------------------------------

  /** While anybody sleeps on a condition, the channel is open and there are at least as many
      signalled waiters as there are units (messages or free slots) to hand out. */
  ghost predicate Covered(units: int, w: Waiters, closed: bool) {
    w.asleep !! w.awake && (w.asleep != {} ==> units <= |w.awake| && !closed)
  }

  lemma SignalCovers(units: int, w: Waiters, closed: bool, woken: set<Tid>)
    requires Covered(units, w, closed) && IsSignal(w, woken)
    ensures Covered(units + 1, Wake(w, woken), closed)
  {
    assert |w.awake + woken| == |w.awake| + |woken|;
  }

  lemma SpuriousCovers(units: int, w: Waiters, closed: bool, t: Tid)
    requires Covered(units, w, closed)
    ensures t in w.asleep ==>
              Covered(units, Wake(w, {t}), closed)
              && Wake(w, {t}).asleep + Wake(w, {t}).awake == w.asleep + w.awake
  {
    if t in w.asleep { assert |w.awake + {t}| == |w.awake| + 1; }
  }

  lemma WakeKeepsAll(w: Waiters, woken: set<Tid>)
    requires woken <= w.asleep
    ensures Wake(w, woken).asleep + Wake(w, woken).awake == w.asleep + w.awake
  {
  }

  lemma LeaveCovers(units: int, w: Waiters, closed: bool, t: Tid)
    requires Covered(units, w, closed)
    ensures Covered(units - 1, Leave(w, t), closed)
  {
    if t in w.awake { assert w.awake == (w.awake - {t}) + {t}; } else { assert w.awake - {t} == w.awake; }
  }

  ghost predicate WakeOk(count: nat, cap: nat, closed: bool, recv: Waiters, send: Waiters,
                         pending: map<Tid, Cell>) {
    && pending.Keys == send.asleep + send.awake
    && Covered(count, recv, closed)
    && Covered(cap - count, send, closed)
  }

  ghost predicate WakeInv(s: Chan) {
    WakeOk(s.ring.count, s.ring.cap, s.closed, s.recv, s.send, s.pending)
  }

  lemma SenderSleeps(count: nat, cap: nat, recv: Waiters, send: Waiters, pending: map<Tid, Cell>, t: Tid, m: Cell)
    requires WakeOk(count, cap, false, recv, send, pending) && cap <= count && t !in send.asleep
    ensures WakeOk(count, cap, false, recv, Sleep(send, t), pending[t := m])
  {
    var send', pending' := Sleep(send, t), pending[t := m];
    assert pending'.Keys == send'.asleep + send'.awake;
  }

  lemma SenderLeaves(count: nat, cap: nat, closed: bool, recv: Waiters, send: Waiters, pending: map<Tid, Cell>,
                     t: Tid)
    requires WakeOk(count, cap, closed, recv, send, pending) && t !in send.asleep
    ensures (pending - {t}).Keys == Leave(send, t).asleep + Leave(send, t).awake
    ensures Covered(cap - count - 1, Leave(send, t), closed)
    ensures closed ==> WakeOk(count, cap, closed, recv, Leave(send, t), pending - {t})
  {
    LeaveCovers(cap - count, send, closed, t);
  }

  lemma SenderDelivers(count: nat, cap: nat, closed: bool, recv: Waiters, send: Waiters, pending: map<Tid, Cell>,
                       t: Tid, woken: set<Tid>)
    requires WakeOk(count, cap, closed, recv, send, pending) && t !in send.asleep && IsSignal(recv, woken)
    ensures WakeOk(count + 1, cap, closed, Wake(recv, woken), Leave(send, t), pending - {t})
  {
    SenderLeaves(count, cap, closed, recv, send, pending, t);
    SignalCovers(count, recv, closed, woken);
  }

  lemma ReceiverSleeps(cap: nat, recv: Waiters, send: Waiters, pending: map<Tid, Cell>, t: Tid)
    requires WakeOk(0, cap, false, recv, send, pending)
    ensures WakeOk(0, cap, false, Sleep(recv, t), send, pending)
  {
  }

  lemma ReceiverLeaves(cap: nat, closed: bool, recv: Waiters, send: Waiters, pending: map<Tid, Cell>, t: Tid)
    requires WakeOk(0, cap, closed, recv, send, pending)
    ensures WakeOk(0, cap, closed, Leave(recv, t), send, pending)
  {
  }

  lemma ReceiverTakes(count: nat, cap: nat, closed: bool, recv: Waiters, send: Waiters, pending: map<Tid, Cell>,
                      t: Tid, woken: set<Tid>)
    requires 0 < count && WakeOk(count, cap, closed, recv, send, pending) && IsSignal(send, woken)
    ensures WakeOk(count - 1, cap, closed, Leave(recv, t), Wake(send, woken), pending)
  {
    LeaveCovers(count, recv, closed, t);
    SignalCovers(cap - count, send, closed, woken);
    WakeKeepsAll(send, woken);
  }

  lemma SendKeepsWake(s: Chan, t: Tid, m: Cell, woken: set<Tid>)
    requires Sized(s.ring) && WakeInv(s) && MaySend(s, t, m) && IsSignal(s.recv, woken)
    ensures WakeInv(AfterSend(s, t, m, woken))
  {
    match SendResult(s)
    case SendSlept => SenderSleeps(s.ring.count, s.ring.cap, s.recv, s.send, s.pending, t, m);
    case SendRefused => SenderLeaves(s.ring.count, s.ring.cap, s.closed, s.recv, s.send, s.pending, t);
    case SendAccepted => SenderDelivers(s.ring.count, s.ring.cap, s.closed, s.recv, s.send, s.pending, t, woken);
  }

  lemma RecvKeepsWake(s: Chan, t: Tid, block: bool, woken: set<Tid>)
    requires Sized(s.ring) && WakeInv(s) && MayRecv(s, t, block) && IsSignal(s.send, woken)
    ensures WakeInv(AfterRecv(s, t, block, woken))
  {
    match RecvResult(s, block)
    case RecvSlept => ReceiverSleeps(s.ring.cap, s.recv, s.send, s.pending, t);
    case RecvNull => ReceiverLeaves(s.ring.cap, s.closed, s.recv, s.send, s.pending, t);
    case RecvGot(c) => ReceiverTakes(s.ring.count, s.ring.cap, s.closed, s.recv, s.send, s.pending, t, woken);
  }

  // ---- ring: first in, first out ---------------------------------------------------------------

  ghost predicate RingInv(r: Ring) {
    && Sized(r)
    && r.count <= r.cap
    && |r.accepted| == |r.taken| + r.count
    && r.head == |r.taken| % U32
    && r.tail == |r.accepted| % U32
  }

  /** Messages leave in the order in which they were accepted: what was taken, followed by what the
      ring holds from `head` on, is what was accepted. */
  ghost predicate Fifo(r: Ring) {
    && Sized(r)
    && r.accepted == r.taken + seq(r.count, i requires 0 <= i => r.cells[((r.head + i) % U32) % r.cap])
  }

  /** The same by absolute positions in the stream of messages. */
  ghost predicate FifoAt(r: Ring) {
    && Sized(r)
    && |r.accepted| == |r.taken| + r.count
    && r.taken <= r.accepted
    && forall i :: |r.taken| <= i < |r.accepted| ==> r.cells[i % r.cap] == r.accepted[i]
  }

  /** Wrap-around does not disturb the slot numbering when the capacity divides 2^32. */
  lemma SlotOf(cap: nat, n: nat)
    requires cap > 0 && U32 % cap == 0
    ensures (n % U32) % cap == n % cap
  {
    var q, k := n / U32, U32 / cap;
    MulAssoc(q, k, cap);
    assert n == (q * k) * cap + n % U32;
    ModShift(n % U32, q * k, cap);
  }

  lemma FifoByPosition(r: Ring)
    requires RingInv(r) && U32 % r.cap == 0
    ensures Fifo(r) <==> FifoAt(r)
  {
    var buffered := seq(r.count, i requires 0 <= i => r.cells[((r.head + i) % U32) % r.cap]);
    forall i | 0 <= i < r.count
      ensures buffered[i] == r.cells[(|r.taken| + i) % r.cap]
    {
      ModAdd(|r.taken|, i, U32);
      SlotOf(r.cap, |r.taken| + i);
    }
    if FifoAt(r) {
      assert r.accepted == r.taken + buffered;
    }
    if Fifo(r) {
      forall i | |r.taken| <= i < |r.accepted| ensures r.cells[i % r.cap] == r.accepted[i] {
        assert buffered[i - |r.taken|] == r.cells[(|r.taken| + (i - |r.taken|)) % r.cap];
      }
    }
  }

  lemma PutKeepsFifo(r: Ring, m: Cell)
    requires RingInv(r) && FifoAt(r) && U32 % r.cap == 0 && r.count < r.cap
    ensures FifoAt(Put(r, m))
  {
    SlotOf(r.cap, |r.accepted|);
    forall i | |r.taken| <= i < |r.accepted| ensures i % r.cap != |r.accepted| % r.cap {
      ModDistinct(i, |r.accepted|, r.cap);
    }
  }

  lemma TakeKeepsFifo(r: Ring)
    requires RingInv(r) && FifoAt(r) && U32 % r.cap == 0 && r.count > 0
    ensures FifoAt(Take(r))
  {
    SlotOf(r.cap, |r.taken|);
    forall i | |r.taken| < i < |r.accepted| ensures i % r.cap != |r.taken| % r.cap {
      ModDistinct(|r.taken|, i, r.cap);
    }
    assert Front(r) == r.accepted[|r.taken|];
  }

  lemma PutKeepsRing(r: Ring, m: Cell)
    requires RingInv(r) && r.count < r.cap
    ensures RingInv(Put(r, m))
  {
    ModAdd(|r.accepted|, 1, U32);
  }

  lemma TakeKeepsRing(r: Ring)
    requires RingInv(r) && r.count > 0
    ensures RingInv(Take(r))
  {
    ModAdd(|r.taken|, 1, U32);
  }

  // ---- every step of every run keeps the invariant ---------------------------------------------

  ghost predicate Inv(s: Chan) {
    RingInv(s.ring) && WakeInv(s) && (U32 % s.ring.cap == 0 ==> FifoAt(s.ring))
  }

  lemma SendKeepsInv(s: Chan, t: Tid, m: Cell, woken: set<Tid>)
    requires Inv(s) && MaySend(s, t, m) && IsSignal(s.recv, woken)
    ensures Inv(AfterSend(s, t, m, woken)) && AfterSend(s, t, m, woken).ring.cap == s.ring.cap
  {
    SendKeepsWake(s, t, m, woken);
    if SendResult(s) == SendAccepted {
      PutKeepsRing(s.ring, m);
      if U32 % s.ring.cap == 0 { PutKeepsFifo(s.ring, m); }
    }
  }

  lemma RecvKeepsInv(s: Chan, t: Tid, block: bool, woken: set<Tid>)
    requires Inv(s) && MayRecv(s, t, block) && IsSignal(s.send, woken)
    ensures Inv(AfterRecv(s, t, block, woken)) && AfterRecv(s, t, block, woken).ring.cap == s.ring.cap
  {
    RecvKeepsWake(s, t, block, woken);
    if s.ring.count > 0 {
      TakeKeepsRing(s.ring);
      if U32 % s.ring.cap == 0 { TakeKeepsFifo(s.ring); }
    }
  }

  lemma CloseKeepsInv(s: Chan)
    requires Inv(s)
    ensures Inv(AfterClose(s)) && AfterClose(s).ring.cap == s.ring.cap
  {
  }

  lemma SpuriousKeepsInv(s: Chan, s': Chan, t: Tid)
    requires Inv(s) && SpuriousStep(s, s', t)
    ensures Inv(s') && s'.ring.cap == s.ring.cap
  {
    SpuriousCovers(s.ring.count, s.recv, s.closed, t);
    SpuriousCovers(s.ring.cap - s.ring.count, s.send, s.closed, t);
  }

  lemma NextKeepsInv(s: Chan, s': Chan, l: Label)
    requires Inv(s) && Next(s, s', l)
    ensures Inv(s') && s'.ring.cap == s.ring.cap
  {
    match l
    case LSend(t, m, woken) => SendKeepsInv(s, t, m, woken);
    case LRecv(t, block, woken) => RecvKeepsInv(s, t, block, woken);
    case LClose => CloseKeepsInv(s);
    case LSpurious(t) => SpuriousKeepsInv(s, s', t);
  }

  /** The invariant holds in every state of every interleaving. */
  lemma {:induction false} RunKeepsInv(cap: nat, tr: seq<Chan>, ls: seq<Label>, k: nat)
    requires cap > 0 && IsRun(cap, tr, ls) && k < |tr|
    ensures Inv(tr[k]) && tr[k].ring.cap == cap
    decreases k
  {
    if k > 0 {
      RunKeepsInv(cap, tr, ls, k - 1);
      NextKeepsInv(tr[k - 1], tr[k - 1 + 1], ls[k - 1]);
    }
  }

  /** No wake-up is lost: whenever a sleeper could make progress, a signalled thread of its kind is
      already on its way to the mutex; after a close nobody is asleep; and receivers and senders are
      never both left to sleep. */
  lemma NoLostWakeup(cap: nat, tr: seq<Chan>, ls: seq<Label>, k: nat)
    requires cap > 0 && IsRun(cap, tr, ls) && k < |tr|
    ensures var s := tr[k];
            && (s.recv.asleep != {} ==> s.ring.count <= |s.recv.awake|)
            && (s.send.asleep != {} ==> s.ring.cap - s.ring.count <= |s.send.awake|)
            && (s.closed ==> s.recv.asleep == {} && s.send.asleep == {})
            && (s.recv.asleep != {} && s.send.asleep != {} ==> s.recv.awake != {} || s.send.awake != {})
  {
    RunKeepsInv(cap, tr, ls, k);
  }

  /** After a close the channel stays closed and accepts nothing more. */
  lemma {:induction false} ClosedForever(cap: nat, tr: seq<Chan>, ls: seq<Label>, j: nat, k: nat)
    requires cap > 0 && IsRun(cap, tr, ls) && j <= k < |tr| && tr[j].closed
    ensures tr[k].closed && tr[k].ring.accepted == tr[j].ring.accepted
    decreases k
  {
    if j < k {
      ClosedForever(cap, tr, ls, j, k - 1);
      assert Next(tr[k - 1], tr[k - 1 + 1], ls[k - 1]);
    }
  }

  /** A blocking receive that answers null does so on a closed channel from which as many messages have been
      taken as were accepted; if the capacity divides 2^32, the very same messages. */
  lemma NullMeansDrained(cap: nat, tr: seq<Chan>, ls: seq<Label>, k: nat)
    requires cap > 0 && IsRun(cap, tr, ls) && k < |ls| && ls[k].LRecv? && ls[k].block
    ensures Sized(tr[k].ring)
    ensures RecvResult(tr[k], true) == RecvNull ==>
              var r := tr[k].ring;
              tr[k].closed && |r.taken| == |r.accepted| && (U32 % cap == 0 ==> r.taken == r.accepted)
  {
    RunKeepsInv(cap, tr, ls, k);
  }

  // ---- what a step does, field by field ------------------------------------------------------------------------

  /** A section of send, in every run. On an open channel with room the message is accepted; on a full one the
      sender sleeps with its message, and nothing is accepted; a closed one refuses it. So it is refused, that is
      neither accepted nor kept waiting, if and only if the channel is closed. A sender that was woken goes on with
      the message it fell asleep with. */
  lemma SendStep(cap: nat, tr: seq<Chan>, ls: seq<Label>, k: nat)
    requires cap > 0 && IsRun(cap, tr, ls) && k < |ls| && ls[k].LSend?
    ensures var s, s', t, m := tr[k], tr[k + 1], ls[k].t, ls[k].m;
      && s.ring.count <= cap && s'.closed == s.closed && s'.ring.taken == s.ring.taken
      && t !in s.send.asleep && (t in s.send.awake ==> t in s.pending && s.pending[t] == m)
      && (!s.closed && s.ring.count < cap ==>
            && s'.ring.accepted == s.ring.accepted + [m] && s'.ring.count == s.ring.count + 1
            && s'.send.asleep == s.send.asleep && t !in s'.send.awake && t !in s'.pending
            && (s.recv.asleep != {} ==> s'.recv.asleep < s.recv.asleep)
            && s'.recv.asleep + s'.recv.awake == s.recv.asleep + s.recv.awake)
      && (!s.closed && s.ring.count == cap ==>
            && s'.ring == s.ring && s'.recv == s.recv && s'.send.asleep == s.send.asleep + {t}
            && t !in s'.send.awake && t in s'.pending && s'.pending[t] == m)
      && (s.closed ==>
            && s'.ring == s.ring && s'.recv == s.recv
            && t !in s'.send.asleep && t !in s'.send.awake && t !in s'.pending)
      && (s'.ring.accepted == s.ring.accepted && t !in s'.send.asleep <==> s.closed)
      && (forall u :: u != t ==> (u in s.pending <==> u in s'.pending))
      && (forall u :: u != t && u in s.pending ==> s'.pending[u] == s.pending[u])
  {
    RunKeepsInv(cap, tr, ls, k);
    assert Next(tr[k], tr[k + 1], ls[k]);
    hide RingInv, FifoAt, IsRun;
    var s, t, m := tr[k], ls[k].t, ls[k].m;
    if t in s.send.asleep { assert false; }
    if s.ring.count < s.ring.cap && !s.closed {
      assert s.ring.accepted + [m] != s.ring.accepted;
    }
  }

  lemma RingFacts(r: Ring)
    requires RingInv(r)
    ensures |r.cells| == r.cap > 0 && |r.accepted| == |r.taken| + r.count
    ensures r.count > 0 && U32 % r.cap == 0 && FifoAt(r) ==> Front(r) == r.accepted[|r.taken|]
  {
    if r.count > 0 && U32 % r.cap == 0 && FifoAt(r) { SlotOf(r.cap, |r.taken|); }
  }

  lemma InvFacts(s: Chan)
    requires Inv(s)
    ensures Sized(s.ring) && s.ring.count <= s.ring.cap && |s.ring.accepted| == |s.ring.taken| + s.ring.count
    ensures s.ring.count > 0 && U32 % s.ring.cap == 0 ==> Front(s.ring) == s.ring.accepted[|s.ring.taken|]
  {
    RingFacts(s.ring);
  }

  /** A section of receive, blocking or not. While there are messages one is taken: the oldest, if the capacity
      divides 2^32. On an empty channel a blocking receive sleeps until it is closed, and any other answers null,
      that is, it takes nothing and does not wait. */
  lemma RecvStep(cap: nat, tr: seq<Chan>, ls: seq<Label>, k: nat)
    requires cap > 0 && IsRun(cap, tr, ls) && k < |ls| && ls[k].LRecv?
    ensures var s, s', t, block := tr[k], tr[k + 1], ls[k].t, ls[k].block;
      && s'.closed == s.closed && s'.ring.accepted == s.ring.accepted && s'.pending == s.pending
      && t !in s.recv.asleep && (t in s.recv.awake ==> block)
      && |s.ring.cells| == cap && |s.ring.accepted| == |s.ring.taken| + s.ring.count
      && (s.ring.count > 0 ==>
            && s'.ring.taken == s.ring.taken + [s.ring.cells[s.ring.head % cap]]
            && (U32 % cap == 0 ==> s'.ring.taken == s.ring.taken + [s.ring.accepted[|s.ring.taken|]])
            && s'.ring.count == s.ring.count - 1
            && t !in s'.recv.asleep && t !in s'.recv.awake
            && (s.send.asleep != {} ==> s'.send.asleep < s.send.asleep)
            && s'.send.asleep + s'.send.awake == s.send.asleep + s.send.awake)
      && (s.ring.count == 0 && block && !s.closed ==>
            s'.ring == s.ring && s'.send == s.send && t in s'.recv.asleep && t !in s'.recv.awake)
      && (s.ring.count == 0 && (!block || s.closed) ==>
            s'.ring == s.ring && s'.send == s.send && t !in s'.recv.asleep && t !in s'.recv.awake)
      && (RecvResult(s, block) == RecvNull <==> s.ring.count == 0 && (!block || s.closed))
      && (RecvResult(s, block).RecvGot? ==> s'.ring.taken == s.ring.taken + [RecvResult(s, block).cell])
  {
    RunKeepsInv(cap, tr, ls, k);
    assert Next(tr[k], tr[k + 1], ls[k]);
    hide IsRun;
    RingFacts(tr[k].ring);
    hide RingInv, FifoAt;
    assert tr[k].ring.count > 0 ==> tr[k + 1].ring.taken == tr[k].ring.taken + [Front(tr[k].ring)];
  }

  /** A close wakes everybody who sleeps and changes nothing else; on a closed channel it changes nothing. */
  lemma CloseStep(cap: nat, tr: seq<Chan>, ls: seq<Label>, k: nat)
    requires cap > 0 && IsRun(cap, tr, ls) && k < |ls| && ls[k].LClose?
    ensures var s, s' := tr[k], tr[k + 1];
      && s'.closed && s'.ring == s.ring && s'.pending == s.pending
      && s'.recv.asleep == {} && s'.send.asleep == {}
      && s'.recv.awake == s.recv.awake + s.recv.asleep && s'.send.awake == s.send.awake + s.send.asleep
  {
    RunKeepsInv(cap, tr, ls, k);
    assert Next(tr[k], tr[k + 1], ls[k]);
    hide IsRun, RingInv, FifoAt;
  }
}
