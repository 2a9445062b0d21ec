/** The mutable channel of src/thread/channel.c. Each method is one critical section, from obtaining
    the mutex to giving it up; `woken` stands for the scheduler's choice of waiters to signal. */
module Channel {
  import opened Base
  import opened ChannelCell
  import opened ChannelSpec

  class BoundedChannel {
    const cap: nat
    var head: nat
    var tail: nat
    var count: nat
    var closed: bool
    var cells: array<Cell>

    ghost var recv: Waiters
    ghost var send: Waiters
    ghost var pending: map<Tid, Cell>
    ghost var accepted: seq<Cell>
    ghost var taken: seq<Cell>

    ghost function RingState(): Ring
      reads this, cells
    {
      Ring(cap, head, tail, count, cells[..], accepted, taken)
    }

    ghost function State(): Chan
      reads this, cells
    {
      Chan(RingState(), closed, recv, send, pending)
    }

    ghost predicate Valid()
      reads this, cells
    {
      cells.Length == cap && Inv(State())
    }

    constructor (capacity: nat)
      ensures Valid() && fresh(cells)
      ensures State() == Empty(EffectiveCap(capacity))
      ensures cap == (if capacity == 0 then 64 else capacity) && !closed && count == 0
      ensures accepted == taken == [] && recv.asleep == recv.awake == send.asleep == send.awake == {}
    {
      var n := EffectiveCap(capacity);
      cap := n;
      head, tail, count, closed := 0, 0, 0, false;
      cells := new Cell[n](i => CellNull);
      recv, send, pending := Waiters({}, {}), Waiters({}, {}), map[];
      accepted, taken := [], [];
      new;
      assert cells[..] == seq(cap, i => CellNull);
    }

    /** Store at `tail` and advance it. */
    method Put(m: Cell)
      requires Sized(RingState())
      modifies `tail, `count, `accepted, cells
      ensures RingState() == ChannelSpec.Put(old(RingState()), m)
    {
      cells[tail % cap] := m;
      tail := (tail + 1) % U32;
      count := count + 1;
      accepted := accepted + [m];
      assert cells[..] == old(cells[..])[old(tail) % cap := m];
    }

    /** Empty the slot at `head` and advance it. */
    method TakeFront() returns (c: Cell)
      requires Sized(RingState()) && count > 0
      modifies `head, `count, `taken, cells
      ensures RingState() == Take(old(RingState())) && c == Front(old(RingState()))
    {
      c := cells[head % cap];
      cells[head % cap] := CellNull;
      head := (head + 1) % U32;
      count := count - 1;
      taken := taken + [c];
      assert cells[..] == old(cells[..])[old(head) % cap := CellNull];
    }

    lemma PutFacts(r: Ring, m: Cell)
      requires Sized(r)
      ensures ChannelSpec.Put(r, m).accepted == r.accepted + [m] && ChannelSpec.Put(r, m).cap == r.cap
      ensures |ChannelSpec.Put(r, m).cells| == |r.cells|
    {
    }

    /** A section of `jello_channel_send` by thread `t`, entered or resumed with message `m`. */
    method Send(ghost t: Tid, m: Cell, ghost woken: set<Tid>) returns (r: SendOutcome)
      requires Valid() && MaySend(State(), t, m) && IsSignal(recv, woken)
      modifies this, cells
      ensures Valid() && cells == old(cells)
      ensures State() == AfterSend(old(State()), t, m, woken)
      ensures r == SendResult(old(State()))
      ensures r == SendRefused <==> old(closed)
      ensures r == SendSlept <==> !old(closed) && old(count) == cap
      ensures accepted == if !old(closed) && old(count) < cap then old(accepted) + [m] else old(accepted)
    {
      InvFacts(State());
      PutFacts(RingState(), m);
      hide Inv, IsSignal, MaySend, ChannelSpec.Put;
      ghost var s := State();
      if !closed && count >= cap {
        send, pending := Sleep(send, t), pending[t := m];
        r := SendSlept;
      } else if closed {
        send, pending := Leave(send, t), pending - {t};
        r := SendRefused;
      } else {
        Put(m);
        recv, send, pending := Wake(recv, woken), Leave(send, t), pending - {t};
        r := SendAccepted;
      }
      assert State() == AfterSend(s, t, m, woken);
      SendKeepsInv(s, t, m, woken);
    }

    /** A section of `channel_recv_locked` by thread `t`; only a blocking one may go to sleep. */
    method Recv(ghost t: Tid, block: bool, ghost woken: set<Tid>) returns (r: RecvOutcome)
      requires Valid() && MayRecv(State(), t, block) && IsSignal(send, woken)
      modifies this, cells
      ensures Valid() && cells == old(cells)
      ensures State() == AfterRecv(old(State()), t, block, woken)
      ensures r == RecvResult(old(State()), block)
      ensures r == RecvNull <==> old(count) == 0 && (!block || old(closed))
      ensures r == RecvSlept <==> old(count) == 0 && block && !old(closed)
      ensures taken == if r.RecvGot? then old(taken) + [r.cell] else old(taken)
      ensures r.RecvGot? && U32 % cap == 0 ==> |old(taken)| < |accepted| && r.cell == accepted[|old(taken)|]
    {
      InvFacts(State());
      hide Inv, IsSignal, FifoAt, RingInv;
      ghost var s := State();
      if block && count == 0 && !closed {
        recv := Sleep(recv, t);
        r := RecvSlept;
      } else if count == 0 {
        recv := Leave(recv, t);
        r := RecvNull;
      } else {
        var c := TakeFront();
        recv, send := Leave(recv, t), Wake(send, woken);
        r := RecvGot(c);
        assert RingState() == Take(s.ring);
      }
      ghost var s' := AfterRecv(s, t, block, woken);
      assert State() == s';
      RecvKeepsInv(s, t, block, woken);
    }

    /** `jello_channel_close`: only the first close reports success. */
    method Close() returns (ok: bool)
      requires Valid()
      modifies this
      ensures Valid() && cells == old(cells)
      ensures Next(old(State()), State(), LClose)
      ensures ok == !old(closed) && closed
    {
      ghost var s := State();
      CloseKeepsInv(s);
      ok := !closed;
      if ok {
        closed := true;
        recv, send := Wake(recv, recv.asleep), Wake(send, send.asleep);
      }
      assert State() == AfterClose(s);
    }
  }
}
