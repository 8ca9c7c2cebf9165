/** Pure model of one relayed connection (a client_t of src/clients.c) and of every step the
    event loop applies to it: the readiness-interest predicates, the receive step, the send step,
    the half-close transitions and connect completion. The imperative Client class in
    clients.dfy is proved against these functions. */
module Relay {
  import opened Wrappers

  /** The client's overall state, state_. */
  datatype ClientState = Connecting | Connected | Closing

  /** The role of one socket, fd_state_[i]. */
  datatype FdState = Establishing | Established | FinPending | FinLinger | ClosePending | CloseLinger

  /** Side 0 is the accepted (downstream) socket, side 1 the dialled (upstream) socket. */
  type SideIndex = i: nat | i < 2

  function Other(i: SideIndex): SideIndex { 1 - i }

  /** What the model keeps of one side: its role, the bytes queued FOR this side
      (write_buf_[i].buf_[0 .. write_buf_offset_[i]]), the capacity write_buf_[i].length_,
      the counter transferred_[i] and how many write shutdowns were issued on fd_[i]. */
  datatype Side = Side(role: FdState, queued: seq<byte>, length: nat, transferred: nat, shutdowns: nat)

  datatype Conn = Conn(state: ClientState, sides: seq<Side>)

  predicate WellFormed(c: Conn) { |c.sides| == 2 }

  predicate Idle(s: Side) { s.queued == [] && s.transferred == 0 }

  /** Structural invariant, kept by every step whatever the readiness sets:
      no buffer holds more than its capacity, the accepted socket is never establishing,
      only a connecting client has an establishing upstream socket, and nothing has been
      buffered or sent before the upstream connect completed. */
  predicate Inv(c: Conn) {
    && WellFormed(c)
    && |c.sides[0].queued| <= c.sides[0].length
    && |c.sides[1].queued| <= c.sides[1].length
    && c.sides[0].role != Establishing
    && (c.state == Connecting <==> c.sides[1].role == Establishing)
    && (c.state == Connecting ==> c.sides[0].role == Established && Idle(c.sides[0]) && Idle(c.sides[1]))
  }

  predicate Closed(r: FdState) { r == ClosePending || r == CloseLinger }

  predicate Finishing(r: FdState) { r == FinPending || r == FinLinger }

  predicate Unshut(r: FdState) { r == Establishing || r == Established || r == FinPending || r == ClosePending }

  /** Role coherence, kept by every step the readiness interest admits (see Enabled):
      a side is told FIN only after the other side saw EOF, a FIN-lingering side has nothing
      queued, and a write shutdown is issued at most once, only on entering a *Linger role. */
  predicate SideCoherent(c: Conn, i: SideIndex)
    requires WellFormed(c)
  {
    var s := c.sides[i];
    && (Finishing(s.role) ==> Closed(c.sides[Other(i)].role))
    && (s.role == FinLinger ==> s.queued == [])
    && (Unshut(s.role) ==> s.shutdowns == 0)
    && s.shutdowns <= 1
  }

  predicate Coherent(c: Conn)
    requires WellFormed(c)
  {
    SideCoherent(c, 0) && SideCoherent(c, 1)
  }

  /** The client as clients_add leaves it while the upstream connect is in flight. */
  function Initial(): (c: Conn)
    ensures Inv(c) && Coherent(c)
    ensures c.state == Connecting && c.sides[0].role == Established && c.sides[1].role == Establishing
    ensures |c.sides[0].queued| == 0 && |c.sides[1].queued| == 0
  {
    Conn(Connecting, [Side(Established, [], 0, 0, 0), Side(Establishing, [], 0, 0, 0)])
  }

  /** Free space write_buf_[i].length_ - write_buf_offset_[i]: the size a recv into it asks for. */
  function Room(c: Conn, i: SideIndex): int
    requires WellFormed(c)
  {
    c.sides[i].length - |c.sides[i].queued|
  }

  // ---------------------------------------------------------------- readiness interest

  /** clients_read_fds: side i is watched for reading. */
  predicate WantsRead(c: Conn, i: SideIndex)
    requires WellFormed(c)
  {
    && (c.state == Connected || c.state == Closing)
    && !Closed(c.sides[i].role)
    && |c.sides[Other(i)].queued| < c.sides[Other(i)].length
  }

  /** clients_write_fds: side i is watched for writing. */
  predicate WantsWrite(c: Conn, i: SideIndex)
    requires WellFormed(c)
  {
    if c.state == Connected || c.state == Closing then
      var r := c.sides[i].role;
      (r == Established || r == ClosePending || r == FinPending) && |c.sides[i].queued| != 0
    else
      i == 1
  }

  // ---------------------------------------------------------------- syscall results

  /** recv(): -1 is RecvFailed, 0 is Received([]) (end of stream), N > 0 are the N bytes read. */
  datatype RecvResult = RecvFailed | Received(data: seq<byte>)

  /** send(): -1 is SendFailed, otherwise the count of bytes the kernel accepted. */
  datatype SendResult = SendFailed | SentCount(n: nat)

  /** getsockopt(SO_ERROR): the call failed, or the pending error of the socket. */
  datatype SockOpt = GetSockOptFailed | PendingError(code: int)

  // ---------------------------------------------------------------- transitions

  function SetSide(c: Conn, i: SideIndex, s: Side): (r: Conn)
    requires WellFormed(c)
    ensures WellFormed(r) && r.state == c.state && r.sides[i] == s && r.sides[Other(i)] == c.sides[Other(i)]
  {
    c.(sides := c.sides[i := s])
  }

  /** client_handle_close: recv() on side `src` returned 0. The boolean asks the caller to
      remove the client. */
  function HandleClose(c: Conn, src: SideIndex): (res: (Conn, bool))
    requires WellFormed(c)
    ensures WellFormed(res.0) && res.0.state == Closing
    ensures res.1 <==> c.sides[Other(src)].role == Establishing || c.sides[Other(src)].role == CloseLinger
    ensures forall i: SideIndex ::
      (res.0.sides[i].queued == c.sides[i].queued && res.0.sides[i].length == c.sides[i].length
       && res.0.sides[i].transferred == c.sides[i].transferred)
  {
    var out := Other(src);
    var s := c.sides[src];
    var c1 := SetSide(c.(state := Closing), src, s.(role := if |s.queued| > 0 then ClosePending else CloseLinger));
    var o := c1.sides[out];
    match o.role
    case Establishing => (c1, true)
    case Established =>
      if |o.queued| > 0 then (SetSide(c1, out, o.(role := FinPending)), false)
      else (SetSide(c1, out, o.(role := FinLinger, shutdowns := o.shutdowns + 1)), false)
    case FinPending => (c1, false)
    case FinLinger => (c1, false)
    case ClosePending => (c1, false)
    case CloseLinger => (c1, true)
  }

  /** client_handle_pending: the buffer of side i was just emptied while the side was
      ClosePending or FinPending; the write direction of fd_[i] is shut down. */
  function HandlePending(c: Conn, i: SideIndex): (res: (Conn, bool))
    requires WellFormed(c)
    ensures WellFormed(res.0) && res.0.state == c.state && res.0.sides[Other(i)] == c.sides[Other(i)]
    ensures !res.1
  {
    var s := c.sides[i];
    (SetSide(c, i, s.(role := if s.role == ClosePending then CloseLinger else FinLinger, shutdowns := s.shutdowns + 1)), false)
  }

  /** One recv() on side `src` of a connected or closing client (the body of clients_read's
      inner loop); the kernel never returns more than the free space asked for. */
  function Receive(c: Conn, src: SideIndex, r: RecvResult): (res: (Conn, bool))
    requires WellFormed(c) && c.state != Connecting
    requires r.Received? ==> |r.data| <= Room(c, Other(src))
    ensures WellFormed(res.0) && res.0.state != Connecting
    ensures res.0.sides[src].queued == c.sides[src].queued && Room(res.0, src) == Room(c, src)
    ensures forall i: SideIndex :: res.0.sides[i].length == c.sides[i].length && res.0.sides[i].transferred == c.sides[i].transferred
  {
    match r
    case RecvFailed => (c, true)
    case Received(data) =>
      if |data| == 0 then HandleClose(c, src)
      else
        var o := c.sides[Other(src)];
        (SetSide(c, Other(src), o.(queued := o.queued + data)), false)
  }

  /** One send() on side i of a connected or closing client (the body of clients_write's inner
      loop); the kernel never accepts more than the write_buf_offset_[i] bytes offered. */
  function Send(c: Conn, i: SideIndex, r: SendResult): (res: (Conn, bool))
    requires WellFormed(c)
    requires r.SentCount? ==> r.n <= |c.sides[i].queued|
    ensures WellFormed(res.0) && res.0.state == c.state && res.0.sides[Other(i)] == c.sides[Other(i)]
    ensures res.0.sides[i].length == c.sides[i].length
    ensures res.1 <==> r.SendFailed?
  {
    match r
    case SendFailed => (c, true)
    case SentCount(n) =>
      var s := c.sides[i];
      if |s.queued| > n then
        (SetSide(c, i, s.(queued := s.queued[n..], transferred := s.transferred + n)), false)
      else
        var c1 := SetSide(c, i, s.(queued := [], transferred := s.transferred + n));
        if s.role == ClosePending || s.role == FinPending then HandlePending(c1, i) else (c1, false)
  }

  /** handle_connect: the upstream socket of a connecting client became writable. Returns the
      new client and handle_connect's return code. */
  function Connect(c: Conn, so: SockOpt, bufferSize: nat): (res: (Conn, int))
    requires WellFormed(c)
    ensures WellFormed(res.0)
  {
    if c.state != Connecting || so.GetSockOptFailed? || so.code != 0 then (c, -1)
    else
      var s0 := c.sides[0].(queued := [], length := bufferSize, transferred := 0);
      var s1 := c.sides[1].(role := Established, queued := [], length := bufferSize, transferred := 0);
      (Conn(Connected, [s0, s1]), 0)
  }

  // ---------------------------------------------------------------- per-client passes

  /** The sides i.. of clients_read's `for(i=0; i<2; ++i)` loop for one client: side j is
      ready when ready[j], and its recv() returns rs[j]; a removal ends the loop. */
  function ReadSides(c: Conn, i: nat, ready: seq<bool>, rs: seq<RecvResult>): (res: (Conn, bool))
    requires WellFormed(c) && c.state != Connecting && i <= 2 && |ready| == 2 && |rs| == 2
    requires forall j: SideIndex :: i <= j && ready[j] && rs[j].Received? ==> |rs[j].data| <= Room(c, Other(j))
    ensures WellFormed(res.0)
    decreases 2 - i
  {
    if i == 2 then (c, false)
    else if !ready[i] then ReadSides(c, i + 1, ready, rs)
    else
      var (c1, removed) := Receive(c, i, rs[i]);
      if removed then (c1, true) else ReadSides(c1, i + 1, ready, rs)
  }

  /** clients_read applied to one client. */
  function ReadPass(c: Conn, ready: seq<bool>, rs: seq<RecvResult>): (res: (Conn, bool))
    requires WellFormed(c) && |ready| == 2 && |rs| == 2
    requires forall j: SideIndex :: ready[j] && rs[j].Received? ==> |rs[j].data| <= Room(c, Other(j))
    ensures WellFormed(res.0)
  {
    if c.state == Connected || c.state == Closing then ReadSides(c, 0, ready, rs) else (c, false)
  }

  /** The sides i.. of clients_write's `for(i=0; i<2; ++i)` loop for one client. */
  function WriteSides(c: Conn, i: nat, ready: seq<bool>, ss: seq<SendResult>): (res: (Conn, bool))
    requires WellFormed(c) && i <= 2 && |ready| == 2 && |ss| == 2
    requires forall j: SideIndex :: i <= j && ready[j] && ss[j].SentCount? ==> ss[j].n <= |c.sides[j].queued|
    ensures WellFormed(res.0)
    decreases 2 - i
  {
    if i == 2 then (c, false)
    else if !ready[i] then WriteSides(c, i + 1, ready, ss)
    else
      var (c1, removed) := Send(c, i, ss[i]);
      if removed then (c1, true) else WriteSides(c1, i + 1, ready, ss)
  }

  /** clients_write applied to one client: sends for a connected or closing client, connect
      completion for a connecting one whose upstream socket is ready. */
  function WritePass(c: Conn, ready: seq<bool>, ss: seq<SendResult>, so: SockOpt, bufferSize: nat): (res: (Conn, bool))
    requires WellFormed(c) && |ready| == 2 && |ss| == 2
    requires forall j: SideIndex :: ready[j] && ss[j].SentCount? ==> ss[j].n <= |c.sides[j].queued|
    ensures WellFormed(res.0)
  {
    if c.state == Connected || c.state == Closing then WriteSides(c, 0, ready, ss)
    else if c.state == Connecting && ready[1] then
      var (c1, ret) := Connect(c, so, bufferSize);
      (c1, ret != 0)
    else (c, false)
  }

  // ---------------------------------------------------------------- single-step properties

  /** Receive: a failed recv removes the client, end of stream runs client_handle_close, and
      N bytes are appended, in order, to the OTHER side's queue; the receiving side's own queue
      never changes and no queue outgrows its capacity. */
  lemma ReceiveOutcome(c: Conn, src: SideIndex, r: RecvResult)
    requires Inv(c) && c.state != Connecting
    requires r.Received? ==> |r.data| <= Room(c, Other(src))
    ensures Inv(Receive(c, src, r).0)
    ensures Receive(c, src, r).1 <==> r.RecvFailed? || (r.data == [] && c.sides[Other(src)].role == CloseLinger)
    ensures r.Received? && r.data != [] ==>
      Receive(c, src, r).0.sides[Other(src)].queued == c.sides[Other(src)].queued + r.data
      && Receive(c, src, r).0.sides[Other(src)].role == c.sides[Other(src)].role
      && Receive(c, src, r).0.sides[src] == c.sides[src] && Receive(c, src, r).0.state == c.state
  {
  }

  /** client_handle_close, side by side (lines 308-332): the client is CLOSING; side `src` is
      ClosePending exactly when bytes are still queued for it; an Established `out` becomes
      FinPending while bytes are queued for it and is otherwise shut down at once (FinLinger);
      every other role of `out` is left alone; removal is asked for exactly when `out` had
      already reached CloseLinger. */
  lemma HandleCloseOutcome(c: Conn, src: SideIndex)
    requires Inv(c) && c.state != Connecting
    ensures var (r, removed) := HandleClose(c, src);
      && Inv(r) && r.state == Closing
      && r.sides[src].role == (if c.sides[src].queued != [] then ClosePending else CloseLinger)
      && r.sides[src].shutdowns == c.sides[src].shutdowns
      && (c.sides[Other(src)].role == Established ==>
            r.sides[Other(src)].role == (if c.sides[Other(src)].queued != [] then FinPending else FinLinger)
            && r.sides[Other(src)].shutdowns == c.sides[Other(src)].shutdowns + (if c.sides[Other(src)].queued != [] then 0 else 1))
      && (c.sides[Other(src)].role != Established ==> r.sides[Other(src)] == c.sides[Other(src)])
      && (removed <==> c.sides[Other(src)].role == CloseLinger)
  {
  }

  /** Send (lines 418-429): the counter grows by exactly the bytes accepted, the unsent tail
      stays queued in order, an emptied ClosePending/FinPending side moves to its *Linger role
      with one write shutdown, and only a failed send removes the client. */
  lemma SendOutcome(c: Conn, i: SideIndex, n: nat)
    requires Inv(c) && n <= |c.sides[i].queued|
    ensures var (r, removed) := Send(c, i, SentCount(n));
      && Inv(r) && !removed
      && r.sides[i].transferred == c.sides[i].transferred + n
      && c.sides[i].queued == c.sides[i].queued[..n] + r.sides[i].queued
      && (n < |c.sides[i].queued| ==> r.sides[i].role == c.sides[i].role && r.sides[i].shutdowns == c.sides[i].shutdowns)
      && (n == |c.sides[i].queued| && c.sides[i].role == ClosePending ==> r.sides[i].role == CloseLinger)
      && (n == |c.sides[i].queued| && c.sides[i].role == FinPending ==> r.sides[i].role == FinLinger)
      && r.sides[i].shutdowns == c.sides[i].shutdowns
           + (if n == |c.sides[i].queued| && (c.sides[i].role == ClosePending || c.sides[i].role == FinPending) then 1 else 0)
  {
    var s := c.sides[i];
    assert s.queued == s.queued[..n] + s.queued[n..];
  }

  /** handle_connect (lines 73-102): it succeeds exactly for a connecting client whose socket
      reports no pending error, and then both buffers have the configured capacity, nothing is
      queued or counted, the client is CONNECTED and the upstream socket ESTABLISHED. */
  lemma ConnectOutcome(c: Conn, so: SockOpt, bufferSize: nat)
    requires Inv(c)
    ensures var (r, ret) := Connect(c, so, bufferSize);
      && Inv(r)
      && (ret == 0 <==> c.state == Connecting && so == PendingError(0))
      && (ret != 0 ==> ret == -1 && r == c)
      && (ret == 0 ==>
            (r.state == Connected && r.sides[1].role == Established && r.sides[0].role == Established
             && forall j: SideIndex :: r.sides[j].queued == [] && r.sides[j].length == bufferSize && r.sides[j].transferred == 0))
  {
  }

  // ---------------------------------------------------------------- runs of the event loop

  /** A readiness event of the loop, with the syscall result it produced. */
  datatype Event =
    | ReadReady(side: SideIndex, recv: RecvResult)
    | WriteReady(side: SideIndex, send: SendResult)
    | ConnectReady(pending: SockOpt)

  /** The loop only dispatches what the interest predicates asked for, and the kernel honours
      the sizes it was given. */
  predicate Enabled(c: Conn, e: Event)
    requires WellFormed(c)
  {
    match e
    case ReadReady(i, r) => WantsRead(c, i) && (r.Received? ==> |r.data| <= Room(c, Other(i)))
    case WriteReady(i, r) => c.state != Connecting && WantsWrite(c, i) && (r.SentCount? ==> r.n <= |c.sides[i].queued|)
    case ConnectReady(_) => c.state == Connecting
  }

  /** Dispatching one event; the boolean is "remove the client". Every step keeps Inv. */
  function Step(c: Conn, e: Event, bufferSize: nat): (res: (Conn, bool))
    requires Inv(c) && Enabled(c, e)
    ensures Inv(res.0)
  {
    match e
    case ReadReady(i, r) => ReceiveOutcome(c, i, r); Receive(c, i, r)
    case WriteReady(i, r) =>
      if r.SendFailed? then Send(c, i, r) else SendOutcome(c, i, r.n); Send(c, i, r)
    case ConnectReady(so) => ConnectOutcome(c, so, bufferSize); var (c1, ret) := Connect(c, so, bufferSize); (c1, ret != 0)
  }

  /** A side's write shutdown count either stays, or grows by one as the side enters
      FinLinger or CloseLinger with nothing queued, coming from a role not yet shut down. */
  predicate ShutdownStep(c: Conn, r: Conn, i: SideIndex)
    requires WellFormed(c) && WellFormed(r)
  {
    r.sides[i].shutdowns == c.sides[i].shutdowns
    || (r.sides[i].shutdowns == c.sides[i].shutdowns + 1 && Unshut(c.sides[i].role)
        && (r.sides[i].role == FinLinger || r.sides[i].role == CloseLinger) && r.sides[i].queued == [])
  }

  lemma ReadCoherent(c: Conn, src: SideIndex, r: RecvResult)
    requires Inv(c) && Coherent(c) && Enabled(c, ReadReady(src, r))
    ensures var c' := Receive(c, src, r).0;
      Coherent(c') && ShutdownStep(c, c', 0) && ShutdownStep(c, c', 1)
  {
    ReceiveOutcome(c, src, r);
    if r.Received? && r.data == [] {
      HandleCloseOutcome(c, src);
    }
  }

  lemma WriteCoherent(c: Conn, i: SideIndex, r: SendResult)
    requires Inv(c) && Coherent(c) && Enabled(c, WriteReady(i, r))
    ensures var c' := Send(c, i, r).0;
      Coherent(c') && ShutdownStep(c, c', 0) && ShutdownStep(c, c', 1)
  {
    if r.SentCount? {
      SendOutcome(c, i, r.n);
    }
  }

  /** Steps the interest admits keep the roles coherent: in particular a side is shut down at
      most once, and only when it enters FinLinger or CloseLinger with nothing queued. */
  lemma StepCoherent(c: Conn, e: Event, bufferSize: nat)
    requires Inv(c) && Coherent(c) && Enabled(c, e)
    ensures var c' := Step(c, e, bufferSize).0;
      Coherent(c') && ShutdownStep(c, c', 0) && ShutdownStep(c, c', 1)
  {
    match e
    case ReadReady(i, r) => ReadCoherent(c, i, r);
    case WriteReady(i, r) => WriteCoherent(c, i, r);
    case ConnectReady(so) => ConnectOutcome(c, so, bufferSize);
  }

  /** Half-close propagation: end of stream on one side while bytes are still queued for the
      other side does NOT shut the other side down; the shutdown is deferred (FinPending). */
  lemma HalfCloseDeferred(c: Conn, src: SideIndex)
    requires Inv(c) && Coherent(c) && WantsRead(c, src)
    requires c.sides[Other(src)].role == Established && c.sides[Other(src)].queued != []
    ensures var (r, removed) := Step(c, ReadReady(src, Received([])), 0);
      !removed && r.sides[Other(src)].role == FinPending && r.sides[Other(src)].shutdowns == 0
  {
    HandleCloseOutcome(c, src);
  }

  /** ... and the send that empties that queue issues exactly one write shutdown. */
  lemma DrainShutsDownOnce(c: Conn, i: SideIndex)
    requires Inv(c) && Coherent(c) && c.state != Connecting
    requires c.sides[i].role == FinPending && c.sides[i].queued != []
    ensures Enabled(c, WriteReady(i, SentCount(|c.sides[i].queued|)))
    ensures var (r, removed) := Step(c, WriteReady(i, SentCount(|c.sides[i].queued|)), 0);
      !removed && r.sides[i].role == FinLinger && r.sides[i].shutdowns == 1 && r.sides[i].queued == []
  {
    SendOutcome(c, i, |c.sides[i].queued|);
  }

  /** Backpressure: a side is read from only while the buffer its bytes go to has room; a
      receive that fills that buffer takes the side out of the read set ... */
  lemma FillingStopsReading(c: Conn, src: SideIndex, data: seq<byte>)
    requires Inv(c) && WantsRead(c, src) && |data| == Room(c, Other(src))
    ensures data != []
    ensures var (r, removed) := Step(c, ReadReady(src, Received(data)), 0);
      !removed && !WantsRead(r, src) && |r.sides[Other(src)].queued| == r.sides[Other(src)].length
  {
    ReceiveOutcome(c, src, Received(data));
  }

  /** ... and any successful send out of that full buffer puts the side back in the read set. */
  lemma DrainingResumesReading(c: Conn, src: SideIndex, n: nat)
    requires Inv(c) && WellFormed(c) && (c.state == Connected || c.state == Closing) && !Closed(c.sides[src].role)
    requires |c.sides[Other(src)].queued| == c.sides[Other(src)].length
    requires 0 < n <= |c.sides[Other(src)].queued|
    ensures !WantsRead(c, src)
    ensures WantsRead(Send(c, Other(src), SentCount(n)).0, src)
  {
    SendOutcome(c, Other(src), n);
  }

  // ---------------------------------------------------------------- whole passes

  /** One client's part of clients_read, over sides select() reported readable because
      clients_read_fds asked for them, keeps the invariant and the roles coherent: each recv
      of the pass is an admitted step. */
  lemma {:induction false} ReadSidesCoherent(c: Conn, i: nat, ready: seq<bool>, rs: seq<RecvResult>)
    requires Inv(c) && Coherent(c) && c.state != Connecting && i <= 2 && |ready| == 2 && |rs| == 2
    requires forall j: SideIndex :: i <= j && ready[j] ==> WantsRead(c, j)
    requires forall j: SideIndex :: i <= j && ready[j] && rs[j].Received? ==> |rs[j].data| <= Room(c, Other(j))
    ensures Inv(ReadSides(c, i, ready, rs).0) && Coherent(ReadSides(c, i, ready, rs).0)
    decreases 2 - i
  {
    if i < 2 {
      if !ready[i] {
        ReadSidesCoherent(c, i + 1, ready, rs);
      } else {
        ReceiveOutcome(c, i, rs[i]);
        ReadCoherent(c, i, rs[i]);
        var c1 := Receive(c, i, rs[i]).0;
        if !Receive(c, i, rs[i]).1 && i == 0 {
          if ready[1] {
            ReceiveKeepsReadInterest(c, rs[0]);
          }
          ReadSidesCoherent(c1, 1, ready, rs);
        }
      }
    }
  }

  /** A recv on side 0 that keeps the client leaves side 1 as readable as it was. */
  lemma ReceiveKeepsReadInterest(c: Conn, r: RecvResult)
    requires Inv(c) && c.state != Connecting && WantsRead(c, 1)
    requires r.Received? ==> |r.data| <= Room(c, 1)
    requires !Receive(c, 0, r).1
    ensures WantsRead(Receive(c, 0, r).0, 1)
  {
    ReceiveOutcome(c, 0, r);
    if r.Received? && r.data == [] {
      HandleCloseOutcome(c, 0);
    }
  }

  lemma ReadPassCoherent(c: Conn, ready: seq<bool>, rs: seq<RecvResult>)
    requires Inv(c) && Coherent(c) && |ready| == 2 && |rs| == 2
    requires forall j: SideIndex :: ready[j] ==> WantsRead(c, j)
    requires forall j: SideIndex :: ready[j] && rs[j].Received? ==> |rs[j].data| <= Room(c, Other(j))
    ensures Inv(ReadPass(c, ready, rs).0) && Coherent(ReadPass(c, ready, rs).0)
  {
    if c.state != Connecting {
      ReadSidesCoherent(c, 0, ready, rs);
    }
  }

  /** The same for clients_write: each send of the pass, and a connect completion, is an
      admitted step. */
  lemma {:induction false} WriteSidesCoherent(c: Conn, i: nat, ready: seq<bool>, ss: seq<SendResult>)
    requires Inv(c) && Coherent(c) && c.state != Connecting && i <= 2 && |ready| == 2 && |ss| == 2
    requires forall j: SideIndex :: i <= j && ready[j] ==> WantsWrite(c, j)
    requires forall j: SideIndex :: i <= j && ready[j] && ss[j].SentCount? ==> ss[j].n <= |c.sides[j].queued|
    ensures Inv(WriteSides(c, i, ready, ss).0) && Coherent(WriteSides(c, i, ready, ss).0)
    decreases 2 - i
  {
    if i < 2 {
      if !ready[i] {
        WriteSidesCoherent(c, i + 1, ready, ss);
      } else {
        WriteCoherent(c, i, ss[i]);
        if ss[i].SentCount? {
          SendOutcome(c, i, ss[i].n);
        }
        var c1 := Send(c, i, ss[i]).0;
        if !Send(c, i, ss[i]).1 && i == 0 {
          assert c1.sides[1] == c.sides[1] && c1.state == c.state;
          WriteSidesCoherent(c1, 1, ready, ss);
        }
      }
    }
  }

  lemma WritePassCoherent(c: Conn, ready: seq<bool>, ss: seq<SendResult>, so: SockOpt, bufferSize: nat)
    requires Inv(c) && Coherent(c) && |ready| == 2 && |ss| == 2
    requires forall j: SideIndex :: ready[j] ==> WantsWrite(c, j)
    requires forall j: SideIndex :: ready[j] && ss[j].SentCount? ==> ss[j].n <= |c.sides[j].queued|
    ensures Inv(WritePass(c, ready, ss, so, bufferSize).0) && Coherent(WritePass(c, ready, ss, so, bufferSize).0)
  {
    if c.state != Connecting {
      WriteSidesCoherent(c, 0, ready, ss);
    } else {
      StepCoherent(c, ConnectReady(so), bufferSize);
    }
  }

  /** A recv never takes a side out of the write set: the write interest clients_write_fds
      computed before clients_read ran still holds for the client clients_write then sees. */
  lemma ReceiveKeepsWriteInterest(c: Conn, src: SideIndex, r: RecvResult, j: SideIndex)
    requires Inv(c) && c.state != Connecting && WantsWrite(c, j)
    requires r.Received? ==> |r.data| <= Room(c, Other(src))
    ensures WantsWrite(Receive(c, src, r).0, j)
  {
    ReceiveOutcome(c, src, r);
    if r.Received? && r.data == [] {
      HandleCloseOutcome(c, src);
    }
  }

  lemma {:induction false} ReadSidesKeepWriteInterest(c: Conn, i: nat, ready: seq<bool>, rs: seq<RecvResult>, j: SideIndex)
    requires Inv(c) && c.state != Connecting && i <= 2 && |ready| == 2 && |rs| == 2 && WantsWrite(c, j)
    requires forall k: SideIndex :: i <= k && ready[k] && rs[k].Received? ==> |rs[k].data| <= Room(c, Other(k))
    ensures WantsWrite(ReadSides(c, i, ready, rs).0, j)
    decreases 2 - i
  {
    if i < 2 {
      if !ready[i] {
        ReadSidesKeepWriteInterest(c, i + 1, ready, rs, j);
      } else {
        ReceiveOutcome(c, i, rs[i]);
        ReceiveKeepsWriteInterest(c, i, rs[i], j);
        if !Receive(c, i, rs[i]).1 && i == 0 {
          ReadSidesKeepWriteInterest(Receive(c, i, rs[i]).0, 1, ready, rs, j);
        }
      }
    }
  }

  /** clients_read leaves every side clients_write_fds asked to write still wanted. */
  lemma ReadPassKeepsWriteInterest(c: Conn, ready: seq<bool>, rs: seq<RecvResult>, j: SideIndex)
    requires Inv(c) && |ready| == 2 && |rs| == 2 && WantsWrite(c, j)
    requires forall k: SideIndex :: ready[k] && rs[k].Received? ==> |rs[k].data| <= Room(c, Other(k))
    ensures WantsWrite(ReadPass(c, ready, rs).0, j)
  {
    if c.state != Connecting {
      ReadSidesKeepWriteInterest(c, 0, ready, rs, j);
    }
  }

  /** A run the loop can produce in which the client is never removed. */
  ghost predicate Live(c: Conn, evs: seq<Event>, bufferSize: nat)
    requires Inv(c)
    decreases |evs|
  {
    evs == [] ||
    (Enabled(c, evs[0]) && !Step(c, evs[0], bufferSize).1 && Live(Step(c, evs[0], bufferSize).0, evs[1..], bufferSize))
  }

  /** The client after a live run. */
  ghost function Final(c: Conn, evs: seq<Event>, bufferSize: nat): (r: Conn)
    requires Inv(c) && Live(c, evs, bufferSize)
    ensures Inv(r)
    decreases |evs|
  {
    if evs == [] then c else Final(Step(c, evs[0], bufferSize).0, evs[1..], bufferSize)
  }

  /** The bytes one event hands to send() on side i. */
  function Emitted(c: Conn, e: Event, i: SideIndex): seq<byte>
    requires WellFormed(c)
  {
    if e.WriteReady? && e.side == i && e.send.SentCount? && e.send.n <= |c.sides[i].queued|
    then c.sides[i].queued[..e.send.n] else []
  }

  /** The bytes one event received from the socket of side i. */
  function Arrived(e: Event, i: SideIndex): seq<byte>
  {
    if e.ReadReady? && e.side == i && e.recv.Received? then e.recv.data else []
  }

  /** Everything received on side i's socket during a run. */
  function ArrivedAll(evs: seq<Event>, i: SideIndex): seq<byte>
  {
    if evs == [] then [] else Arrived(evs[0], i) + ArrivedAll(evs[1..], i)
  }

  /** Everything handed to send() on side i's socket during a live run (only what the kernel
      accepted). */
  ghost function SentAll(c: Conn, evs: seq<Event>, bufferSize: nat, i: SideIndex): seq<byte>
    requires Inv(c) && Live(c, evs, bufferSize)
    decreases |evs|
  {
    if evs == [] then [] else Emitted(c, evs[0], i) + SentAll(Step(c, evs[0], bufferSize).0, evs[1..], bufferSize, i)
  }

  /** One step conserves bytes: what was queued for side i plus what arrived from the other
      side is what was sent to side i plus what is queued for it now. */
  lemma StepConserves(c: Conn, e: Event, bufferSize: nat, i: SideIndex)
    requires Inv(c) && Enabled(c, e) && !Step(c, e, bufferSize).1
    ensures c.sides[i].queued + Arrived(e, Other(i)) == Emitted(c, e, i) + Step(c, e, bufferSize).0.sides[i].queued
    ensures Step(c, e, bufferSize).0.sides[i].transferred == c.sides[i].transferred + |Emitted(c, e, i)|
  {
    match e
    case ReadReady(j, r) =>
      ReceiveOutcome(c, j, r);
    case WriteReady(j, r) =>
      SendOutcome(c, j, r.n);
    case ConnectReady(so) =>
      ConnectOutcome(c, so, bufferSize);
  }

  /** Two conservation equations chained through the intermediate queue. */
  lemma Splice<T>(q: seq<T>, a: seq<T>, rest: seq<T>, e: seq<T>, q1: seq<T>, sent: seq<T>, qf: seq<T>)
    requires q + a == e + q1 && q1 + rest == sent + qf
    ensures q + (a + rest) == (e + sent) + qf
  {
    calc {
      q + (a + rest);
      (q + a) + rest;
      (e + q1) + rest;
      e + (q1 + rest);
      e + (sent + qf);
      (e + sent) + qf;
    }
  }

  /** Byte-exactness and order: over any live run, the relay neither drops, duplicates,
      reorders nor invents bytes; transferred_[i] counts exactly the bytes the kernel accepted. */
  lemma {:induction false} RunConserves(c: Conn, evs: seq<Event>, bufferSize: nat, i: SideIndex)
    requires Inv(c) && Live(c, evs, bufferSize)
    ensures c.sides[i].queued + ArrivedAll(evs, Other(i)) == SentAll(c, evs, bufferSize, i) + Final(c, evs, bufferSize).sides[i].queued
    ensures Final(c, evs, bufferSize).sides[i].transferred == c.sides[i].transferred + |SentAll(c, evs, bufferSize, i)|
    decreases |evs|
  {
    if evs != [] {
      var c1 := Step(c, evs[0], bufferSize).0;
      var q, q1, qf := c.sides[i].queued, c1.sides[i].queued, Final(c1, evs[1..], bufferSize).sides[i].queued;
      var a, rest := Arrived(evs[0], Other(i)), ArrivedAll(evs[1..], Other(i));
      var e, sent := Emitted(c, evs[0], i), SentAll(c1, evs[1..], bufferSize, i);
      assert ArrivedAll(evs, Other(i)) == a + rest;
      assert SentAll(c, evs, bufferSize, i) == e + sent;
      assert Final(c, evs, bufferSize) == Final(c1, evs[1..], bufferSize);
      StepConserves(c, evs[0], bufferSize, i);
      RunConserves(c1, evs[1..], bufferSize, i);
      Splice(q, a, rest, e, q1, sent, qf);
    }
  }

  /** From a fresh client, once both buffers are empty, each socket has been sent exactly the
      bytes received on the other one. */
  lemma DrainedRunIsExact(evs: seq<Event>, bufferSize: nat, i: SideIndex)
    requires Live(Initial(), evs, bufferSize)
    requires Final(Initial(), evs, bufferSize).sides[i].queued == []
    ensures SentAll(Initial(), evs, bufferSize, i) == ArrivedAll(evs, Other(i))
    ensures Final(Initial(), evs, bufferSize).sides[i].transferred == |ArrivedAll(evs, Other(i))|
  {
    RunConserves(Initial(), evs, bufferSize, i);
    assert Initial().sides[i].queued == [];
    assert SentAll(Initial(), evs, bufferSize, i) + [] == SentAll(Initial(), evs, bufferSize, i);
  }
}
