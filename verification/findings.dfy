/** Runs of the relay as written (module Relay) that lose bytes or leak the client, each one
    admitted by the readiness interest the loop computes. */
module RelayDefects {
  import opened Wrappers
  import opened Relay

  const Capacity: nat := 4

  /** The upstream connect completes; both sides are ESTABLISHED with empty 4-byte buffers. */
  function Connected4(): (c: Conn)
    ensures Inv(c) && c.state == Connected
    ensures c.sides[0].role == Established && c.sides[1].role == Established
    ensures c.sides[0].queued == [] && c.sides[1].queued == [] && c.sides[0].length == 4 && c.sides[1].length == 4
  {
    ConnectOutcome(Initial(), PendingError(0), Capacity);
    Step(Initial(), ConnectReady(PendingError(0)), Capacity).0
  }

  /** Side 1 sends one byte, side 0 half-closes before it was flushed, side 1 half-closes,
      and the byte is then flushed to side 0. */
  function LeakTrace(): seq<Event>
  {
    [ConnectReady(PendingError(0)), ReadReady(1, Received([7])), ReadReady(0, Received([])),
     ReadReady(1, Received([])), WriteReady(0, SentCount(1))]
  }

  /** After LeakTrace both sides are CloseLinger, the client was never removed, and no event
      is ever dispatched to it again: it and its two sockets are held forever, because
      client_handle_pending never asks for removal. */
  lemma LeakAfterDrain()
    ensures Live(Initial(), LeakTrace(), Capacity)
    ensures var f := Final(Initial(), LeakTrace(), Capacity);
      f.sides[0].role == CloseLinger && f.sides[1].role == CloseLinger
      && forall e: Event :: !Enabled(f, e)
  {
    LeakRun();
    Lingering(Final(Initial(), LeakTrace(), Capacity));
  }

  /** A client both of whose sides linger is never dispatched anything again. */
  lemma Lingering(f: Conn)
    requires Inv(f) && f.sides[0].role == CloseLinger && f.sides[1].role == CloseLinger
    ensures forall e: Event :: !Enabled(f, e)
  {
  }

  /** LeakTrace runs to its end and leaves both sides CloseLinger. */
  lemma LeakRun()
    ensures Live(Initial(), LeakTrace(), Capacity)
    ensures var f := Final(Initial(), LeakTrace(), Capacity);
      f.sides[0].role == CloseLinger && f.sides[1].role == CloseLinger
  {
    var c1 := Connected4();
    var c2 := Step(c1, ReadReady(1, Received([7])), Capacity).0;
    ReceiveOutcome(c1, 1, Received([7]));
    assert c2.sides[0].queued == [7] && c2.sides[1] == c1.sides[1] && c2.state == Connected;
    var c3 := Step(c2, ReadReady(0, Received([])), Capacity).0;
    HandleCloseOutcome(c2, 0);
    var tail: seq<Event> := [ReadReady(1, Received([])), WriteReady(0, SentCount(1))];
    LeakTail(c3);
    Prepend(c2, ReadReady(0, Received([])), tail);
    Prepend(c1, ReadReady(1, Received([7])), [ReadReady(0, Received([]))] + tail);
    Prepend(Initial(), ConnectReady(PendingError(0)), [ReadReady(1, Received([7]))] + ([ReadReady(0, Received([]))] + tail));
    assert LeakTrace() == [ConnectReady(PendingError(0))] + ([ReadReady(1, Received([7]))] + ([ReadReady(0, Received([]))] + tail));
  }

  /** A live run from the client one admitted, keeping event leads to is a live run from the
      client itself, and ends in the same client. */
  lemma Prepend(c: Conn, e: Event, rest: seq<Event>)
    requires Inv(c) && Enabled(c, e) && !Step(c, e, Capacity).1 && Live(Step(c, e, Capacity).0, rest, Capacity)
    ensures Live(c, [e] + rest, Capacity)
    ensures Final(c, [e] + rest, Capacity) == Final(Step(c, e, Capacity).0, rest, Capacity)
  {
    assert ([e] + rest)[0] == e && ([e] + rest)[1..] == rest;
  }

  /** The last two events of LeakTrace: side 1 half-closes, then the byte queued for the
      ClosePending side 0 is flushed, and both sides end CloseLinger. */
  lemma LeakTail(c3: Conn)
    requires Inv(c3) && c3.state == Closing && c3.sides[0].length == Capacity
    requires c3.sides[0].role == ClosePending && c3.sides[1].role == FinLinger && c3.sides[0].queued == [7]
    requires c3.sides[1].queued == []
    ensures Live(c3, [ReadReady(1, Received([])), WriteReady(0, SentCount(1))], Capacity)
    ensures var f := Final(c3, [ReadReady(1, Received([])), WriteReady(0, SentCount(1))], Capacity);
      f.sides[0].role == CloseLinger && f.sides[1].role == CloseLinger
  {
    var c4 := Step(c3, ReadReady(1, Received([])), Capacity).0;
    HandleCloseOutcome(c3, 1);
    assert c4.sides[1].role == CloseLinger && c4.sides[0].role == ClosePending && c4.sides[0].queued == [7];
    var c5 := Step(c4, WriteReady(0, SentCount(1)), Capacity).0;
    SendOutcome(c4, 0, 1);
    var t: seq<Event> := [ReadReady(1, Received([])), WriteReady(0, SentCount(1))];
    assert Live(c5, t[2..], Capacity);
    assert Live(c4, t[1..], Capacity);
    assert Final(c4, t[1..], Capacity) == c5;
  }

  /** Side 1 sends one byte and half-closes before it was flushed to side 0. */
  function EarlyCloseTrace(): seq<Event>
  {
    [ConnectReady(PendingError(0)), ReadReady(1, Received([7])), ReadReady(1, Received([]))]
  }

  /** If side 0 then half-closes too, client_handle_close removes the client (side 1 is
      CloseLinger) although the byte for side 0 was never sent: side 0 is overwritten from
      FinPending to ClosePending and the queued byte is discarded. */
  lemma CloseDropsQueuedBytes()
    ensures Live(Initial(), EarlyCloseTrace(), Capacity)
    ensures var f := Final(Initial(), EarlyCloseTrace(), Capacity);
      && f.sides[0].queued == [7] && SentAll(Initial(), EarlyCloseTrace(), Capacity, 0) == []
      && Enabled(f, ReadReady(0, Received([])))
      && Step(f, ReadReady(0, Received([])), Capacity).1
  {
    var c1 := Connected4();
    var c2 := Step(c1, ReadReady(1, Received([7])), Capacity).0;
    ReceiveOutcome(c1, 1, Received([7]));
    var c3 := Step(c2, ReadReady(1, Received([])), Capacity).0;
    HandleCloseOutcome(c2, 1);
    assert c3.sides[0].role == FinPending && c3.sides[1].role == CloseLinger && c3.sides[0].queued == [7];
    HandleCloseOutcome(c3, 0);
    var t := EarlyCloseTrace();
    assert Live(c3, t[3..], Capacity);
    assert Live(c2, t[2..], Capacity);
    assert Live(c1, t[1..], Capacity);
    assert Final(c3, t[3..], Capacity) == c3;
    assert Final(c2, t[2..], Capacity) == c3;
    assert Final(c1, t[1..], Capacity) == c3;
    assert SentAll(c2, t[2..], Capacity, 0) == [];
  }

  /** Side 0 half-closes on an idle client, then side 1 answers with one byte. */
  function HalfCloseThenReply(): seq<Event>
  {
    [ConnectReady(PendingError(0)), ReadReady(0, Received([])), ReadReady(1, Received([7]))]
  }

  /** A CloseLinger side is never written to again on any live run. */
  lemma {:induction false} CloseLingerNeverSends(c: Conn, evs: seq<Event>, bufferSize: nat, i: SideIndex)
    requires Inv(c) && Live(c, evs, bufferSize) && c.sides[i].role == CloseLinger
    ensures SentAll(c, evs, bufferSize, i) == []
    ensures Final(c, evs, bufferSize).sides[i].role == CloseLinger
    decreases |evs|
  {
    if evs != [] {
      var e := evs[0];
      var c1 := Step(c, e, bufferSize).0;
      match e {
        case ReadReady(j, r) =>
          ReceiveOutcome(c, j, r);
          if r.Received? && r.data == [] {
            HandleCloseOutcome(c, j);
          }
        case WriteReady(j, r) =>
          assert j != i;
        case ConnectReady(so) =>
          ConnectOutcome(c, so, bufferSize);
      }
      assert c1.sides[i].role == CloseLinger && Emitted(c, e, i) == [];
      CloseLingerNeverSends(c1, evs[1..], bufferSize, i);
    }
  }

  /** After HalfCloseThenReply the byte 7 that side 1 sent sits in side 0's buffer while side 0
      is CloseLinger: no continuation of the run ever sends it, so a reply after a client's
      half-close never reaches the client. */
  lemma ReplyAfterHalfCloseStranded(evs: seq<Event>)
    ensures Live(Initial(), HalfCloseThenReply(), Capacity)
    ensures var f := Final(Initial(), HalfCloseThenReply(), Capacity);
      && f.sides[0].queued == [7] && f.sides[0].role == CloseLinger
      && ArrivedAll(HalfCloseThenReply(), 1) == [7]
      && (Live(f, evs, Capacity) ==> SentAll(f, evs, Capacity, 0) == [])
  {
    var c1 := Connected4();
    var c2 := Step(c1, ReadReady(0, Received([])), Capacity).0;
    HandleCloseOutcome(c1, 0);
    assert c2.sides[0].role == CloseLinger && c2.sides[1].role == FinLinger && c2.state == Closing;
    var c3 := Step(c2, ReadReady(1, Received([7])), Capacity).0;
    ReceiveOutcome(c2, 1, Received([7]));
    assert c3.sides[0].role == CloseLinger && c3.sides[0].queued == [7];
    var t := HalfCloseThenReply();
    assert Live(c3, t[3..], Capacity);
    assert Live(c2, t[2..], Capacity);
    assert Live(c1, t[1..], Capacity);
    assert Final(c3, t[3..], Capacity) == c3;
    assert Final(c2, t[2..], Capacity) == c3;
    assert Final(c1, t[1..], Capacity) == c3;
    assert ArrivedAll(t[3..], 1) == [];
    assert ArrivedAll(t[2..], 1) == [7];
    assert ArrivedAll(t[1..], 1) == [7];
    if Live(c3, evs, Capacity) {
      CloseLingerNeverSends(c3, evs, Capacity, 0);
    }
  }
}

/** The half-close relay as the program evidently intends it (the half-close test of
    contrib/testclient.c, the "removal postponed" case of src/clients.c): each direction closes
    on its own. A side records whether its peer sent end of stream (eof) and whether its own
    write direction was shut down (shut); a side is shut down exactly when the other side saw
    end of stream and everything queued for it was sent, and the client is removed exactly when
    both directions are finished. The connect phase is unchanged and not repeated here. */
module HalfClose {
  import opened Wrappers
  import Relay

  datatype Side = Side(eof: bool, shut: bool, queued: seq<byte>, length: nat, transferred: nat, shutdowns: nat)

  datatype Conn = Conn(sides: seq<Side>)

  predicate WellFormed(c: Conn) { |c.sides| == 2 }

  predicate SideInv(c: Conn, i: Relay.SideIndex)
    requires WellFormed(c)
  {
    var s := c.sides[i];
    && |s.queued| <= s.length
    && s.shutdowns == (if s.shut then 1 else 0)
    && (s.shut <==> c.sides[Relay.Other(i)].eof && s.queued == [])
  }

  predicate Inv(c: Conn) { WellFormed(c) && SideInv(c, 0) && SideInv(c, 1) }

  /** Both directions finished: both peers sent end of stream and both sides were shut down. */
  predicate Finished(c: Conn)
    requires WellFormed(c)
  {
    c.sides[0].eof && c.sides[1].eof && c.sides[0].shut && c.sides[1].shut
  }

  /** A freshly connected client. */
  function Opened(bufferSize: nat): (c: Conn)
    ensures Inv(c) && !Finished(c)
  {
    Conn([Side(false, false, [], bufferSize, 0, 0), Side(false, false, [], bufferSize, 0, 0)])
  }

  function SetSide(c: Conn, i: Relay.SideIndex, s: Side): (r: Conn)
    requires WellFormed(c)
    ensures WellFormed(r) && r.sides[i] == s && r.sides[Relay.Other(i)] == c.sides[Relay.Other(i)]
  {
    c.(sides := c.sides[i := s])
  }

  predicate WantsRead(c: Conn, i: Relay.SideIndex)
    requires WellFormed(c)
  {
    !c.sides[i].eof && |c.sides[Relay.Other(i)].queued| < c.sides[Relay.Other(i)].length
  }

  predicate WantsWrite(c: Conn, i: Relay.SideIndex)
    requires WellFormed(c)
  {
    c.sides[i].queued != []
  }

  /** Shut side i down once the other side saw end of stream and nothing is queued for i. */
  function ShutIfDrained(c: Conn, i: Relay.SideIndex): (r: Conn)
    requires WellFormed(c)
    ensures WellFormed(r) && r.sides[Relay.Other(i)] == c.sides[Relay.Other(i)]
    ensures r.sides[i] == c.sides[i].(shut := r.sides[i].shut, shutdowns := r.sides[i].shutdowns)
    ensures r.sides[i].shut <==> c.sides[i].shut || (c.sides[Relay.Other(i)].eof && c.sides[i].queued == [])
    ensures r.sides[i].shutdowns == c.sides[i].shutdowns + (if r.sides[i].shut && !c.sides[i].shut then 1 else 0)
  {
    var s := c.sides[i];
    if c.sides[Relay.Other(i)].eof && s.queued == [] && !s.shut
    then SetSide(c, i, s.(shut := true, shutdowns := s.shutdowns + 1))
    else c
  }

  function Receive(c: Conn, src: Relay.SideIndex, r: Relay.RecvResult): (res: (Conn, bool))
    requires WellFormed(c)
    ensures WellFormed(res.0)
    ensures res.1 <==> r.RecvFailed? || (r.data == [] && Finished(res.0))
    ensures r.Received? && r.data != [] ==>
      res.0.sides[Relay.Other(src)].queued == c.sides[Relay.Other(src)].queued + r.data && res.0.sides[src] == c.sides[src]
    ensures r.Received? && r.data == [] ==>
      res.0.sides[src] == c.sides[src].(eof := true) && res.0.sides[Relay.Other(src)].queued == c.sides[Relay.Other(src)].queued
  {
    match r
    case RecvFailed => (c, true)
    case Received(data) =>
      if data == [] then
        var c2 := ShutIfDrained(SetSide(c, src, c.sides[src].(eof := true)), Relay.Other(src));
        (c2, Finished(c2))
      else
        var o := c.sides[Relay.Other(src)];
        (SetSide(c, Relay.Other(src), o.(queued := o.queued + data)), false)
  }

  function Send(c: Conn, i: Relay.SideIndex, r: Relay.SendResult): (res: (Conn, bool))
    requires WellFormed(c)
    requires r.SentCount? ==> r.n <= |c.sides[i].queued|
    ensures WellFormed(res.0)
    ensures res.1 <==> r.SendFailed? || Finished(res.0)
    ensures r.SentCount? ==>
      && res.0.sides[i].queued == c.sides[i].queued[r.n..]
      && res.0.sides[i].transferred == c.sides[i].transferred + r.n
      && res.0.sides[Relay.Other(i)] == c.sides[Relay.Other(i)]
  {
    match r
    case SendFailed => (c, true)
    case SentCount(n) =>
      var s := c.sides[i];
      var c2 := ShutIfDrained(SetSide(c, i, s.(queued := s.queued[n..], transferred := s.transferred + n)), i);
      (c2, Finished(c2))
  }

  predicate Enabled(c: Conn, e: Relay.Event)
    requires WellFormed(c)
  {
    match e
    case ReadReady(i, r) =>
      WantsRead(c, i) && (r.Received? ==> |r.data| <= c.sides[Relay.Other(i)].length - |c.sides[Relay.Other(i)].queued|)
    case WriteReady(i, r) => WantsWrite(c, i) && (r.SentCount? ==> r.n <= |c.sides[i].queued|)
    case ConnectReady(_) => false
  }

  function Step(c: Conn, e: Relay.Event): (res: (Conn, bool))
    requires Inv(c) && Enabled(c, e)
    ensures Inv(res.0)
  {
    match e
    case ReadReady(i, r) => Receive(c, i, r)
    case WriteReady(i, r) => Send(c, i, r)
  }

  /** The bytes one event hands to send() on side i. */
  function Emitted(c: Conn, e: Relay.Event, i: Relay.SideIndex): seq<byte>
    requires WellFormed(c)
  {
    if e.WriteReady? && e.side == i && e.send.SentCount? && e.send.n <= |c.sides[i].queued|
    then c.sides[i].queued[..e.send.n] else []
  }

  /** Every step conserves bytes, exactly as the relay as written does. */
  lemma StepConserves(c: Conn, e: Relay.Event, i: Relay.SideIndex)
    requires Inv(c) && Enabled(c, e)
    ensures c.sides[i].queued + Relay.Arrived(e, Relay.Other(i)) == Emitted(c, e, i) + Step(c, e).0.sides[i].queued
    ensures Step(c, e).0.sides[i].transferred == c.sides[i].transferred + |Emitted(c, e, i)|
  {
    if e.WriteReady? && e.side == i && e.send.SentCount? {
      var q := c.sides[i].queued;
      assert q == q[..e.send.n] + q[e.send.n..];
    }
  }

  /** The corrected half of the stranded reply: after side i half-closed, a reply from the
      other side is queued for side i, keeps side i in the write set, and one send of the
      whole queue delivers it while the other direction stays open. */
  lemma HalfClosedReplyDelivered(c: Conn, i: Relay.SideIndex, data: seq<byte>)
    requires Inv(c) && c.sides[i].eof && WantsRead(c, Relay.Other(i))
    requires 0 < |data| <= c.sides[i].length - |c.sides[i].queued|
    ensures Enabled(c, Relay.ReadReady(Relay.Other(i), Relay.Received(data)))
    ensures var (r, removed) := Step(c, Relay.ReadReady(Relay.Other(i), Relay.Received(data)));
      var flush := Relay.WriteReady(i, Relay.SentCount(|r.sides[i].queued|));
      && !removed && r.sides[i].queued == c.sides[i].queued + data && WantsWrite(r, i)
      && Enabled(r, flush) && Emitted(r, flush, i) == c.sides[i].queued + data
      && Step(r, flush).0.sides[i].queued == [] && !Step(r, flush).1
  {
    var r := Step(c, Relay.ReadReady(Relay.Other(i), Relay.Received(data))).0;
    var flush := Relay.WriteReady(i, Relay.SentCount(|r.sides[i].queued|));
    assert Emitted(r, flush, i) == r.sides[i].queued[..|r.sides[i].queued|];
  }

  /** The client is removed only after a failed syscall or when both directions are finished,
      and then nothing is left queued and each side was shut down exactly once. */
  lemma RemovalDrained(c: Conn, e: Relay.Event)
    requires Inv(c) && Enabled(c, e) && Step(c, e).1
    ensures (e.ReadReady? && e.recv.RecvFailed?) || (e.WriteReady? && e.send.SendFailed?) ||
      (var r := Step(c, e).0;
       && Finished(r)
       && r.sides[0].queued == [] && r.sides[1].queued == []
       && r.sides[0].shutdowns == 1 && r.sides[1].shutdowns == 1)
  {
  }

  /** A step that keeps the client leaves it unfinished and, with non-empty buffers, still
      waiting on some descriptor: a kept client is never stranded. */
  lemma KeptStaysDispatchable(c: Conn, e: Relay.Event)
    requires Inv(c) && Enabled(c, e) && !Step(c, e).1
    requires c.sides[0].length > 0 && c.sides[1].length > 0
    ensures var r := Step(c, e).0;
      !Finished(r) && (WantsRead(r, 0) || WantsRead(r, 1) || WantsWrite(r, 0) || WantsWrite(r, 1))
  {
    AlwaysDispatchable(Step(c, e).0);
  }

  /** A client that is not finished always has some readiness interest, so the loop never
      abandons it (with non-empty buffers). */
  lemma AlwaysDispatchable(c: Conn)
    requires Inv(c) && !Finished(c) && c.sides[0].length > 0 && c.sides[1].length > 0
    ensures WantsRead(c, 0) || WantsRead(c, 1) || WantsWrite(c, 0) || WantsWrite(c, 1)
  {
    if !c.sides[0].eof && !WantsRead(c, 0) {
      assert WantsWrite(c, 1);
    } else if !c.sides[1].eof && !WantsRead(c, 1) {
      assert WantsWrite(c, 0);
    } else if c.sides[0].eof && c.sides[1].eof {
      if !c.sides[0].shut {
        assert WantsWrite(c, 0);
      } else {
        assert WantsWrite(c, 1);
      }
    }
  }
}
