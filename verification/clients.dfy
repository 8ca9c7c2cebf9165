/** The client list of the relay as an imperative model: a client_t is a Client object whose
    fields are updated in place, its two write buffers are arrays, and the list is a Registry
    holding a sequence of clients. Every operation is proved to do exactly what the pure
    transition of the same name in module Relay does to the client's abstract view. */
module Clients {
  import opened Wrappers
  import opened Relay

  /** Two well-formed clients are equal when their states and both sides are. */
  lemma SameConn(a: Conn, b: Conn)
    requires WellFormed(a) && WellFormed(b) && a.state == b.state
    requires a.sides[0] == b.sides[0] && a.sides[1] == b.sides[1]
    ensures a == b
  {
    assert a.sides == b.sides;
  }

  /** memmove(b, b + from, count): the count bytes at from.. move, in order, to the front;
      the rest of the buffer is untouched. */
  method MemMove(b: array<byte>, from: nat, count: nat)
    requires from + count <= b.Length
    modifies b
    ensures b[..count] == old(b[from..from + count])
    ensures b[count..] == old(b[count..])
  {
    var k := 0;
    while k < count
      invariant 0 <= k <= count
      invariant forall j :: 0 <= j < k ==> b[j] == old(b[from + j])
      invariant forall j :: k <= j < b.Length ==> b[j] == old(b[j])
    {
      b[k] := b[from + k];
      k := k + 1;
    }
  }

  /** What recv() does to the buffer it is handed: data is written at position at. */
  method Deposit(b: array<byte>, at: nat, data: seq<byte>)
    requires at + |data| <= b.Length
    modifies b
    ensures b[..at] == old(b[..at])
    ensures b[at..at + |data|] == data
    ensures b[at + |data|..] == old(b[at + |data|..])
  {
    forall k | 0 <= k < |data| {
      b[at + k] := data[k];
    }
  }

  /** fds and maxFd are fds0 and maxFd0 with the sockets in interest added: the set grows by
      exactly those, and the maximum is the larger of maxFd0 and theirs. */
  ghost predicate Gathered(interest: set<int>, fds0: set<int>, maxFd0: int, fds: set<int>, maxFd: int)
  {
    && fds == fds0 + interest
    && maxFd0 <= maxFd && (forall x :: x in interest ==> x <= maxFd)
    && (maxFd == maxFd0 || maxFd in interest)
  }

  lemma GatherMore(interest: set<int>, more: set<int>, fds0: set<int>, maxFd0: int,
                   fds: set<int>, maxFd: int, fds1: set<int>, maxFd1: int)
    requires Gathered(interest, fds0, maxFd0, fds, maxFd)
    requires Gathered(more, fds, maxFd, fds1, maxFd1)
    ensures Gathered(interest + more, fds0, maxFd0, fds1, maxFd1)
  {
  }

  /** A client_t: the accepted socket fd[0], the upstream socket fd[1], and for each side i the
      bytes waiting to be sent on fd[i] (writeBuf[i][..offset[i]]). */
  class Client {
    var state: ClientState
    var fd: seq<int>
    var fdState: seq<FdState>
    var writeBuf: seq<array<byte>>
    var offset: seq<nat>
    var transferred: seq<nat>
    /** How many times shutdown(fd[i], SHUT_WR) was issued. */
    ghost var shutdowns: seq<nat>
    ghost var Repr: set<object>

    ghost predicate Shaped()
      reads this
    {
      && |fd| == 2 && |fdState| == 2 && |writeBuf| == 2 && |offset| == 2
      && |transferred| == 2 && |shutdowns| == 2
      && Repr == {this, writeBuf[0], writeBuf[1]}
      && writeBuf[0] != writeBuf[1]
      && offset[0] <= writeBuf[0].Length && offset[1] <= writeBuf[1].Length
    }

    ghost function SideView(i: SideIndex): Side
      reads this, Repr
      requires Shaped()
    {
      Side(fdState[i], writeBuf[i][..offset[i]], writeBuf[i].Length, transferred[i], shutdowns[i])
    }

    /** The abstract client the fields represent. */
    ghost function View(): Conn
      reads this, Repr
      requires Shaped()
    {
      Conn(state, [SideView(0), SideView(1)])
    }

    ghost predicate Valid()
      reads this, Repr
    {
      Shaped() && Inv(View())
    }

    /** The client clients_add builds before connecting: the accepted socket is established,
        the upstream one is establishing, and neither side has a buffer yet. */
    constructor (accepted: int, upstream: int)
      ensures Valid() && fresh(Repr)
      ensures fd == [accepted, upstream] && View() == Initial()
    {
      state := Connecting;
      fd := [accepted, upstream];
      fdState := [Established, Establishing];
      var b0 := new byte[0];
      var b1 := new byte[0];
      writeBuf := [b0, b1];
      offset := [0, 0];
      transferred := [0, 0];
      shutdowns := [0, 0];
      Repr := {this, b0, b1};
    }

    /** Whether clients_read_fds adds fd[i] to the read set. */
    function ReadInterest(i: SideIndex): (b: bool)
      reads this, Repr
      requires Shaped()
      ensures b == WantsRead(View(), i)
    {
      (state == Connected || state == Closing)
        && fdState[i] != ClosePending && fdState[i] != CloseLinger
        && offset[Other(i)] < writeBuf[Other(i)].Length
    }

    /** Whether clients_write_fds adds fd[i] to the write set. */
    function WriteInterest(i: SideIndex): (b: bool)
      reads this, Repr
      requires Shaped()
      ensures b == WantsWrite(View(), i)
    {
      if state == Connected || state == Closing then
        (fdState[i] == Established || fdState[i] == ClosePending || fdState[i] == FinPending)
          && offset[i] != 0
      else
        i == 1
    }

    /** The sockets of this client that are wanted for reading or writing. */
    ghost function Wanted(forWrite: bool): set<int>
      reads this, Repr
      requires Shaped()
    {
      (if Wants(View(), 0, forWrite) then {fd[0]} else {}) + (if Wants(View(), 1, forWrite) then {fd[1]} else {})
    }

    /** Socket x is this client's side i, and that side is wanted. */
    ghost predicate Serves(x: int, i: SideIndex, forWrite: bool)
      reads this, Repr
    {
      Shaped() && fd[i] == x && Wants(View(), i, forWrite)
    }

    lemma WantedServes(x: int, forWrite: bool)
      requires Shaped()
      ensures x in Wanted(forWrite) <==> Serves(x, 0, forWrite) || Serves(x, 1, forWrite)
    {
    }

    /** The body clients_read_fds (forWrite false) or clients_write_fds (forWrite true) runs
        for this client: each wanted socket joins the set and raises the maximum. */
    function AddInterest(forWrite: bool, fds0: set<int>, maxFd0: int): (r: (set<int>, int))
      reads this, Repr
      requires Shaped()
      ensures Gathered(Wanted(forWrite), fds0, maxFd0, r.0, r.1)
    {
      var w0 := if forWrite then WriteInterest(0) else ReadInterest(0);
      var w1 := if forWrite then WriteInterest(1) else ReadInterest(1);
      var fds1 := if w0 then fds0 + {fd[0]} else fds0;
      var max1 := if w0 && fd[0] > maxFd0 then fd[0] else maxFd0;
      var fds2 := if w1 then fds1 + {fd[1]} else fds1;
      var max2 := if w1 && fd[1] > max1 then fd[1] else max1;
      (fds2, max2)
    }

    /** handle_connect: the upstream socket became writable; so is getsockopt(SO_ERROR). */
    method HandleConnect(so: SockOpt, bufferSize: nat) returns (ret: int)
      requires Valid()
      modifies this
      ensures Valid() && fresh(Repr - old(Repr)) && fd == old(fd)
      ensures (View(), ret) == Connect(old(View()), so, bufferSize)
    {
      if state != Connecting {
        return -1;
      }
      if so.GetSockOptFailed? {
        return -1;
      }
      if so.code != 0 {
        return -1;
      }
      for i := 0 to 2
        invariant |writeBuf| == 2 && |offset| == 2 && |transferred| == 2
        invariant state == old(state) && fd == old(fd) && fdState == old(fdState) && shutdowns == old(shutdowns)
        invariant forall j :: i <= j < 2 ==> writeBuf[j] == old(writeBuf[j]) && offset[j] == old(offset[j])
        invariant forall j :: 0 <= j < i ==>
          (fresh(writeBuf[j]) && writeBuf[j].Length == bufferSize && offset[j] == 0 && transferred[j] == 0)
        invariant forall j :: i <= j < 2 ==> transferred[j] == old(transferred[j])
        invariant i == 2 ==> writeBuf[0] != writeBuf[1]
      {
        var b := new byte[bufferSize];
        writeBuf := writeBuf[i := b];
        offset := offset[i := 0];
        transferred := transferred[i := 0];
      }
      Repr := {this, writeBuf[0], writeBuf[1]};
      state := Connected;
      fdState := fdState[1 := Established];
      ret := 0;
    }

    /** The end of clients_add for a fresh client whose connect() did not fail: a connect
        still in progress leaves it as it is, one that completed at once runs handle_connect. */
    method Open(conn: ConnectResult, so: SockOpt, bufferSize: nat) returns (ret: int)
      requires Valid() && View() == Initial() && conn != ConnectFailed
      modifies this
      ensures Valid() && fresh(Repr - old(Repr)) && fd == old(fd)
      ensures ret == 0 <==> conn == ConnectInProgress || so == PendingError(0)
      ensures ret != 0 ==> ret == -1
      ensures ret == 0 ==>
        View() == if conn == ConnectInProgress then Initial() else Connect(Initial(), so, bufferSize).0
    {
      ret := 0;
      if conn == ConnectDone {
        ConnectOutcome(Initial(), so, bufferSize);
        ret := HandleConnect(so, bufferSize);
      }
    }

    /** client_handle_close: recv() on fd[src] returned 0. remove asks the caller to drop
        the client. */
    method HandleClose(src: SideIndex) returns (remove: bool)
      requires Valid() && state != Connecting
      modifies this
      ensures Valid() && Repr == old(Repr) && fd == old(fd) && writeBuf == old(writeBuf)
      ensures (View(), remove) == Relay.HandleClose(old(View()), src)
    {
      ghost var want := Relay.HandleClose(View(), src);
      HandleCloseOutcome(View(), src);
      var out := Other(src);
      state := Closing;
      fdState := fdState[src := if offset[src] != 0 then ClosePending else CloseLinger];
      if fdState[out] == Established {
        if offset[out] != 0 {
          fdState := fdState[out := FinPending];
        } else {
          fdState := fdState[out := FinLinger];
          shutdowns := shutdowns[out := shutdowns[out] + 1];
        }
        remove := false;
      } else {
        remove := fdState[out] == Establishing || fdState[out] == CloseLinger;
      }
      assert Shaped();
      SameConn(View(), want.0);
    }

    /** client_handle_pending: the buffer of side i was just emptied; fd[i] is shut down for
        writing. */
    method HandlePending(i: SideIndex) returns (remove: bool)
      requires Valid() && state != Connecting
      modifies this
      ensures Valid() && Repr == old(Repr) && fd == old(fd) && writeBuf == old(writeBuf)
      ensures (View(), remove) == Relay.HandlePending(old(View()), i)
    {
      ghost var want := Relay.HandlePending(View(), i);
      fdState := fdState[i := if fdState[i] == ClosePending then CloseLinger else FinLinger];
      shutdowns := shutdowns[i := shutdowns[i] + 1];
      remove := false;
      SameConn(View(), want.0);
    }

    /** One recv() on fd[src] into the free space of the other side's buffer; r is what the
        kernel returned. */
    method Receive(src: SideIndex, r: RecvResult) returns (remove: bool)
      requires Valid() && state != Connecting
      requires r.Received? ==> |r.data| <= Room(View(), Other(src))
      modifies this, writeBuf[Other(src)]
      ensures Valid() && Repr == old(Repr) && fd == old(fd) && writeBuf == old(writeBuf)
      ensures (View(), remove) == Relay.Receive(old(View()), src, r)
    {
      var out := Other(src);
      match r {
        case RecvFailed =>
          remove := true;
        case Received(data) =>
          if |data| == 0 {
            remove := HandleClose(src);
          } else {
            Queue(out, data);
            remove := false;
          }
      }
    }

    /** recv() placed data at the end of the bytes queued for side i. */
    method Queue(i: SideIndex, data: seq<byte>)
      requires Valid() && state != Connecting && data != [] && |data| <= Room(View(), i)
      modifies this, writeBuf[i]
      ensures Valid() && Repr == old(Repr) && fd == old(fd) && writeBuf == old(writeBuf)
      ensures View() == Relay.Receive(old(View()), Other(i), Received(data)).0
    {
      var b := writeBuf[i];
      var at := offset[i];
      ghost var want := Relay.Receive(View(), Other(i), Received(data));
      ghost var q := b[..at];
      Deposit(b, at, data);
      assert b[..at + |data|] == q + data by {
        assert b[..at + |data|] == b[..at] + b[at..at + |data|];
      }
      offset := offset[i := at + |data|];
      assert Shaped();
      SameConn(View(), want.0);
    }

    /** One send() on fd[i] of the queued bytes; r is what the kernel returned. A failure
        removes the client. */
    method Send(i: SideIndex, r: SendResult) returns (remove: bool)
      requires Valid() && state != Connecting
      requires r.SentCount? ==> r.n <= offset[i]
      modifies this, writeBuf[i]
      ensures Valid() && Repr == old(Repr) && fd == old(fd) && writeBuf == old(writeBuf)
      ensures (View(), remove) == Relay.Send(old(View()), i, r)
    {
      match r {
        case SendFailed =>
          remove := true;
        case SentCount(len) =>
          remove := Sent(i, len);
      }
    }

    /** send() on fd[i] accepted len bytes: they are counted, the unsent rest is moved to the
        front of the buffer, and an emptied buffer completes a pending close or FIN. */
    method Sent(i: SideIndex, len: nat) returns (remove: bool)
      requires Valid() && state != Connecting && len <= offset[i]
      modifies this, writeBuf[i]
      ensures Valid() && Repr == old(Repr) && fd == old(fd) && writeBuf == old(writeBuf)
      ensures (View(), remove) == Relay.Send(old(View()), i, SentCount(len))
    {
      if offset[i] > len {
        remove := SentPart(i, len);
      } else {
        remove := SentAll(i);
      }
    }

    /** Part of the buffer was sent: the rest moves to the front. */
    method SentPart(i: SideIndex, len: nat) returns (remove: bool)
      requires Valid() && state != Connecting && len < offset[i]
      modifies this, writeBuf[i]
      ensures Valid() && Repr == old(Repr) && fd == old(fd) && writeBuf == old(writeBuf)
      ensures (View(), remove) == Relay.Send(old(View()), i, SentCount(len))
    {
      ghost var v := View();
      ghost var q := v.sides[i].queued;
      MemMove(writeBuf[i], len, offset[i] - len);
      transferred, offset := transferred[i := transferred[i] + len], offset[i := offset[i] - len];
      remove := false;
      assert writeBuf[i][..offset[i]] == q[len..];
      assert Shaped();
      SameConn(View(), Relay.Send(v, i, SentCount(len)).0);
    }

    /** The whole buffer was sent: it is empty again, and a pending close or FIN completes. */
    method SentAll(i: SideIndex) returns (remove: bool)
      requires Valid() && state != Connecting
      modifies this
      ensures Valid() && Repr == old(Repr) && fd == old(fd) && writeBuf == old(writeBuf)
      ensures (View(), remove) == Relay.Send(old(View()), i, SentCount(old(offset[i])))
    {
      ghost var v := View();
      var len := offset[i];
      transferred := transferred[i := transferred[i] + len];
      offset := offset[i := 0];
      remove := false;
      ghost var drained := SetSide(v, i, v.sides[i].(queued := [], transferred := v.sides[i].transferred + len));
      assert Shaped();
      SameConn(View(), drained);
      if fdState[i] == ClosePending || fdState[i] == FinPending {
        remove := HandlePending(i);
      }
    }

    /** Which of fd[0], fd[1] are in a descriptor set returned by select(). */
    function Ready(ready: set<int>): seq<bool>
      reads this
      requires |fd| == 2
    {
      [fd[0] in ready, fd[1] in ready]
    }

    /** What a syscall returns on fd[0] and fd[1]. */
    function Results<R>(f: int -> R): seq<R>
      reads this
      requires |fd| == 2
    {
      [f(fd[0]), f(fd[1])]
    }

    /** The kernel never hands recv() more bytes than the free space it was offered. */
    ghost predicate FitsRecv(ready: set<int>, recv: int -> RecvResult)
      reads this, Repr
      requires Shaped()
    {
      var rd := Ready(ready);
      var rs := Results(recv);
      forall j: SideIndex :: rd[j] && rs[j].Received? ==> |rs[j].data| <= Room(View(), Other(j))
    }

    /** The kernel never reports more bytes sent than send() was offered. */
    ghost predicate FitsSend(ready: set<int>, send: int -> SendResult)
      reads this, Repr
      requires Shaped()
    {
      var rd := Ready(ready);
      var ss := Results(send);
      forall j: SideIndex :: rd[j] && ss[j].SentCount? ==> ss[j].n <= |View().sides[j].queued|
    }

    /** What clients_read does to this client, as the pure model has it. */
    ghost function ReadOutcome(ready: set<int>, recv: int -> RecvResult): (Conn, bool)
      reads this, Repr
      requires Shaped() && FitsRecv(ready, recv)
    {
      ReadPass(View(), Ready(ready), Results(recv))
    }

    /** What clients_write does to this client, as the pure model has it. */
    ghost function WriteOutcome(ready: set<int>, send: int -> SendResult, so: SockOpt, bufferSize: nat): (Conn, bool)
      reads this, Repr
      requires Shaped() && FitsSend(ready, send)
    {
      WritePass(View(), Ready(ready), Results(send), so, bufferSize)
    }

    /** Every side of this client that select() reported ready was asked for by
        clients_read_fds (forWrite false) or clients_write_fds (forWrite true). */
    ghost predicate Asked(ready: set<int>, forWrite: bool)
      reads this, Repr
      requires Shaped()
    {
      forall i: SideIndex :: fd[i] in ready ==> Wants(View(), i, forWrite)
    }

    /** A clients_read pass over sides that were asked for keeps the roles coherent. */
    lemma ReadOutcomeCoherent(ready: set<int>, recv: int -> RecvResult)
      requires Valid() && FitsRecv(ready, recv) && Coherent(View()) && Asked(ready, false)
      ensures Inv(ReadOutcome(ready, recv).0) && Coherent(ReadOutcome(ready, recv).0)
    {
      var rd := Ready(ready);
      assert forall j: SideIndex :: rd[j] ==> WantsRead(View(), j);
      ReadPassCoherent(View(), rd, Results(recv));
    }

    /** A clients_write pass over sides that were asked for keeps the roles coherent. */
    lemma WriteOutcomeCoherent(ready: set<int>, send: int -> SendResult, so: SockOpt, bufferSize: nat)
      requires Valid() && FitsSend(ready, send) && Coherent(View()) && Asked(ready, true)
      ensures Inv(WriteOutcome(ready, send, so, bufferSize).0) && Coherent(WriteOutcome(ready, send, so, bufferSize).0)
    {
      var rd := Ready(ready);
      assert forall j: SideIndex :: rd[j] ==> WantsWrite(View(), j);
      WritePassCoherent(View(), rd, Results(send), so, bufferSize);
    }

    /** The write interest asked for before clients_read still holds after its pass, so the
        sides select() reported writable are still asked for when clients_write runs. */
    lemma ReadOutcomeKeepsWriteAsk(ready: set<int>, recv: int -> RecvResult, writable: set<int>)
      requires Valid() && FitsRecv(ready, recv) && Asked(writable, true)
      ensures forall i: SideIndex :: fd[i] in writable ==> WantsWrite(ReadOutcome(ready, recv).0, i)
    {
      forall i: SideIndex | fd[i] in writable
        ensures WantsWrite(ReadOutcome(ready, recv).0, i)
      {
        ReadPassKeepsWriteInterest(View(), Ready(ready), Results(recv), i);
      }
    }

    /** The part of clients_read that handles this client: each ready side of a connected or
        closing client is received from, and a removal ends the pass. */
    method ServeRead(ready: set<int>, recv: int -> RecvResult) returns (remove: bool)
      requires Valid() && FitsRecv(ready, recv)
      modifies Repr
      ensures Valid() && Repr == old(Repr) && fd == old(fd)
      ensures (View(), remove) == old(ReadOutcome(ready, recv))
    {
      ghost var c0 := View();
      ghost var rd := Ready(ready);
      ghost var rs := Results(recv);
      remove := false;
      if state == Connected || state == Closing {
        for i := 0 to 2
          invariant Valid() && Repr == old(Repr) && fd == old(fd) && state != Connecting && !remove
          invariant forall j: SideIndex :: i <= j && rd[j] && rs[j].Received? ==> |rs[j].data| <= Room(View(), Other(j))
          invariant ReadSides(View(), i, rd, rs) == ReadSides(c0, 0, rd, rs)
        {
          if fd[i] in ready {
            remove := Receive(i, recv(fd[i]));
            if remove {
              return;
            }
          }
        }
      }
    }

    /** The part of clients_write that handles this client: each ready side of a connected or
        closing client is sent from, and a connecting client whose upstream socket is ready
        completes its connect; so is what getsockopt(SO_ERROR) reports for it. */
    method ServeWrite(ready: set<int>, send: int -> SendResult, so: SockOpt, bufferSize: nat) returns (remove: bool)
      requires Valid() && FitsSend(ready, send)
      modifies Repr
      ensures Valid() && fresh(Repr - old(Repr)) && fd == old(fd)
      ensures (View(), remove) == old(WriteOutcome(ready, send, so, bufferSize))
    {
      if state == Connected || state == Closing {
        remove := SendReady(ready, send);
      } else if state == Connecting && fd[1] in ready {
        var ret := HandleConnect(so, bufferSize);
        remove := ret != 0;
      } else {
        remove := false;
      }
    }

    /** The `for(i=0; i<2; ++i)` loop of clients_write for a connected or closing client. */
    method SendReady(ready: set<int>, send: int -> SendResult) returns (remove: bool)
      requires Valid() && FitsSend(ready, send) && (state == Connected || state == Closing)
      modifies Repr
      ensures Valid() && Repr == old(Repr) && fd == old(fd)
      ensures (View(), remove) == WriteSides(old(View()), 0, old(Ready(ready)), old(Results(send)))
    {
      ghost var c0 := View();
      ghost var rd := Ready(ready);
      ghost var ss := Results(send);
      remove := false;
      for i := 0 to 2
        invariant Valid() && Repr == old(Repr) && fd == old(fd) && state != Connecting && !remove
        invariant forall j: SideIndex :: i <= j && rd[j] && ss[j].SentCount? ==> ss[j].n <= |View().sides[j].queued|
        invariant WriteSides(View(), i, rd, ss) == WriteSides(c0, 0, rd, ss)
      {
        if fd[i] in ready {
          remove := Send(i, send(fd[i]));
          if remove {
            return;
          }
        }
      }
    }
  }

  /** The interest predicate clients_read_fds (forWrite false) or clients_write_fds
      (forWrite true) applies to side i. */
  predicate Wants(c: Conn, i: SideIndex, forWrite: bool)
    requires WellFormed(c)
  {
    if forWrite then WantsWrite(c, i) else WantsRead(c, i)
  }

  /** Client c has not been served yet: out records what its clients_read pass will do. */
  ghost predicate ReadPending(c: Client, ready: set<int>, recv: int -> RecvResult, out: map<Client, (Conn, bool)>)
    reads c, c.Repr
  {
    c in out && c.Shaped() && c.FitsRecv(ready, recv) && c.ReadOutcome(ready, recv) == out[c]
  }

  /** Client c has not been served yet: out records what its clients_write pass will do. */
  ghost predicate WritePending(c: Client, ready: set<int>, send: int -> SendResult, sockopt: int -> SockOpt,
                               bufferSize: nat, out: map<Client, (Conn, bool)>)
    reads c, c.Repr
  {
    && c in out && c.Shaped() && c.FitsSend(ready, send)
    && c.WriteOutcome(ready, send, sockopt(c.fd[1]), bufferSize) == out[c]
  }

  /** Client c's roles are coherent and select() reported ready only sides it asked for. */
  ghost predicate Settled(c: Client, ready: set<int>, forWrite: bool)
    reads c, c.Repr
  {
    c.Shaped() && Coherent(c.View()) && c.Asked(ready, forWrite)
  }

  /** Client c was served and its view is v. */
  ghost predicate Shows(c: Client, v: Conn)
    reads c, c.Repr
  {
    c.Shaped() && c.View() == v
  }

  /** No client is listed twice. */
  ghost predicate Distinct(cs: seq<Client>) {
    forall j, k :: 0 <= j < k < |cs| ==> cs[j] != cs[k]
  }

  /** Keeping the client at position k of a distinct list after some of the clients before
      it leaves a distinct list. */
  lemma DistinctStep(cs: seq<Client>, kept: seq<Client>, k: nat)
    requires Distinct(cs) && Distinct(kept) && k < |cs|
    requires forall c :: c in kept ==> c in cs[..k]
    ensures Distinct(kept + [cs[k]])
  {
    var a := kept + [cs[k]];
    forall x, y | 0 <= x < y < |a|
      ensures a[x] != a[y]
    {
      if y == |kept| {
        assert kept[x] in kept;
        var j :| 0 <= j < k && cs[j] == kept[x];
      }
    }
  }

  /** The clients of cs, in order, that are not in gone: what is left of a list after the
      clients in gone are unlinked from it. */
  ghost function Kept(cs: seq<Client>, gone: set<Client>): (r: seq<Client>)
    ensures forall c :: c in r ==> c in cs && c !in gone
    ensures forall c :: c in cs && c !in gone ==> c in r
    ensures |r| <= |cs|
  {
    if cs == [] then []
    else
      var last := cs[|cs| - 1];
      Kept(cs[..|cs| - 1], gone) + (if last in gone then [] else [last])
  }

  /** Walking one more position of cs either keeps that client or drops it; at the end of
      the list the walk has seen all of cs. */
  lemma KeptStep(cs: seq<Client>, k: nat, gone: set<Client>)
    requires k <= |cs|
    ensures k < |cs| ==>
      Kept(cs[..k + 1], gone) == Kept(cs[..k], gone) + (if cs[k] in gone then [] else [cs[k]])
    ensures k == |cs| ==> Kept(cs[..k], gone) == Kept(cs, gone)
  {
    if k < |cs| {
      assert cs[..k + 1][..k] == cs[..k];
    } else {
      assert cs[..k] == cs;
    }
  }

  /** The outcome of connect() on the upstream socket: done at once, in progress
      (EINPROGRESS), or failed. */
  datatype ConnectResult = ConnectDone | ConnectInProgress | ConnectFailed

  /** A clients_t: the list of clients and the buffer size each connected client gets. */
  class Registry {
    var clients: seq<Client>
    var bufferSize: nat
    ghost var Repr: set<object>

    /** Every listed client's representation is part of the list's. */
    ghost predicate Shapes()
      reads this, Repr
    {
      this in Repr && forall c :: c in clients ==> c in Repr && c.Repr <= Repr && c.Shaped()
    }

    ghost predicate Valid()
      reads this, Repr
    {
      && Shapes()
      && Distinct(clients)
      && (forall c :: c in clients ==> this !in c.Repr && c.Valid())
      && (forall c, d :: c in clients && d in clients && c != d ==> c.Repr !! d.Repr)
    }

    /** clients_init: an empty list. */
    constructor (size: nat)
      ensures Valid() && fresh(Repr) && clients == [] && bufferSize == size
    {
      clients := [];
      bufferSize := size;
      Repr := {this};
    }

    /** The sockets the first n clients want to read from (forWrite false) or write to
        (forWrite true). */
    ghost function Interest(n: nat, forWrite: bool): set<int>
      reads this, Repr
      requires Shapes() && n <= |clients|
    {
      if n == 0 then {}
      else
        assert clients[n - 1] in clients;
        Interest(n - 1, forWrite) + clients[n - 1].Wanted(forWrite)
    }

    /** A socket is of interest exactly when one of the first n clients owns it and wants
        that side read from (or written to). */
    lemma {:induction false} InterestMembers(n: nat, forWrite: bool, x: int)
      requires Shapes() && n <= |clients|
      ensures x in Interest(n, forWrite) <==>
        exists k, i: SideIndex :: 0 <= k < n && clients[k].Serves(x, i, forWrite)
    {
      if n > 0 {
        InterestMembers(n - 1, forWrite, x);
        var c := clients[n - 1];
        assert c in clients;
        c.WantedServes(x, forWrite);
        assert Interest(n, forWrite) == Interest(n - 1, forWrite) + c.Wanted(forWrite);
        if c.Serves(x, 0, forWrite) {
          assert clients[n - 1].Serves(x, 0, forWrite);
        } else if c.Serves(x, 1, forWrite) {
          assert clients[n - 1].Serves(x, 1, forWrite);
        }
        forall k, i: SideIndex | 0 <= k < n && clients[k].Serves(x, i, forWrite)
          ensures x in Interest(n, forWrite)
        {
          if k < n - 1 {
            assert 0 <= k < n - 1 && clients[k].Serves(x, i, forWrite);
          }
        }
      }
    }

    /** clients_add: the accepted socket and a new upstream socket form a client. upstream is
        what socket() returned, optionsOk whether TCP_NODELAY and O_NONBLOCK could be set on
        both sockets, hasSource whether a source address is configured and bindOk whether
        binding to it worked, conn what connect() did and so what getsockopt(SO_ERROR) reports
        when it completed at once. */
    method Add(accepted: int, upstream: int, optionsOk: bool, hasSource: bool, bindOk: bool,
               conn: ConnectResult, so: SockOpt) returns (ret: int)
      requires Valid()
      modifies this
      ensures Valid() && fresh(Repr - old(Repr)) && bufferSize == old(bufferSize)
      ensures ret == 0 <==>
        (&& upstream >= 0 && optionsOk && (hasSource ==> bindOk)
         && (conn == ConnectInProgress || (conn == ConnectDone && so == PendingError(0))))
      ensures ret != 0 ==> ret == -1 && clients == old(clients)
      ensures ret == 0 ==>
        (&& |clients| == |old(clients)| + 1 && clients[..|old(clients)|] == old(clients)
         && fresh(clients[|old(clients)|]) && clients[|old(clients)|].fd == [accepted, upstream]
         && clients[|old(clients)|].Valid()
         && clients[|old(clients)|].View() ==
              if conn == ConnectInProgress then Initial() else Connect(Initial(), so, bufferSize).0)
    {
      if upstream < 0 || !optionsOk || (hasSource && !bindOk) {
        return -1;
      }
      var c := new Client(accepted, upstream);
      // slist_add runs before connect() and a failed connect removes the client again, so the
      // list only changes once the connect did not fail.
      if conn == ConnectFailed {
        return -1;
      }
      ret := c.Open(conn, so, bufferSize);
      if ret != 0 {
        return;
      }
      Append(c);
    }

    /** slist_add: c joins the end of the list. */
    method Append(c: Client)
      requires Valid() && c.Valid() && c !in Repr && c.Repr !! Repr
      modifies this
      ensures Valid() && clients == old(clients) + [c] && Repr == old(Repr) + c.Repr
      ensures bufferSize == old(bufferSize)
    {
      clients := clients + [c];
      Repr := Repr + c.Repr;
      assert forall d :: d in clients ==> d in old(clients) || d == c;
    }

    /** clients_find: the first client one of whose sockets is fd, or null. */
    method Find(fd: int) returns (c: Client?)
      requires Valid()
      ensures c == null <==> forall k :: 0 <= k < |clients| ==> fd !in clients[k].fd
      ensures c != null ==>
        exists k :: 0 <= k < |clients| && clients[k] == c && fd in c.fd &&
          forall j :: 0 <= j < k ==> fd !in clients[j].fd
    {
      var k := 0;
      while k < |clients|
        invariant 0 <= k <= |clients|
        invariant forall j :: 0 <= j < k ==> fd !in clients[j].fd
      {
        var d := clients[k];
        assert d in clients;
        if d.fd[0] == fd || d.fd[1] == fd {
          return d;
        }
        k := k + 1;
      }
      return null;
    }

    /** clients_read_fds (forWrite false) and clients_write_fds (forWrite true): the sockets
        every client is interested in join the set, and maxFd is raised to the largest. */
    method InterestFds(forWrite: bool, fds0: set<int>, maxFd0: int) returns (fds: set<int>, maxFd: int)
      requires Shapes()
      ensures Gathered(Interest(|clients|, forWrite), fds0, maxFd0, fds, maxFd)
    {
      fds, maxFd := fds0, maxFd0;
      for k := 0 to |clients|
        invariant Gathered(Interest(k, forWrite), fds0, maxFd0, fds, maxFd)
      {
        var c := clients[k];
        assert c in clients;
        var r := c.AddInterest(forWrite, fds, maxFd);
        assert Interest(k + 1, forWrite) == Interest(k, forWrite) + c.Wanted(forWrite);
        GatherMore(Interest(k, forWrite), c.Wanted(forWrite), fds0, maxFd0, fds, maxFd, r.0, r.1);
        fds, maxFd := r.0, r.1;
      }
    }

    /** clients_read_fds: every socket some client wants to read from joins the set. */
    method ReadFds(fds0: set<int>, maxFd0: int) returns (fds: set<int>, maxFd: int)
      requires Valid()
      ensures fds == fds0 + Interest(|clients|, false)
      ensures maxFd0 <= maxFd && (forall x :: x in Interest(|clients|, false) ==> x <= maxFd)
      ensures maxFd == maxFd0 || maxFd in Interest(|clients|, false)
    {
      fds, maxFd := InterestFds(false, fds0, maxFd0);
    }

    /** clients_write_fds: every socket some client wants to write to, or is connecting on,
        joins the set. */
    method WriteFds(fds0: set<int>, maxFd0: int) returns (fds: set<int>, maxFd: int)
      requires Valid()
      ensures fds == fds0 + Interest(|clients|, true)
      ensures maxFd0 <= maxFd && (forall x :: x in Interest(|clients|, true) ==> x <= maxFd)
      ensures maxFd == maxFd0 || maxFd in Interest(|clients|, true)
    {
      fds, maxFd := InterestFds(true, fds0, maxFd0);
    }

    /** The list is cut down to kept, a selection of its clients, whose views (recorded in
        views) do not change. */
    method Retain(kept: seq<Client>, ghost views: map<Client, Conn>)
      requires Valid() && Distinct(kept) && forall c :: c in kept ==> c in clients
      requires forall c :: c in kept ==> c in views && Shows(c, views[c])
      modifies this
      ensures Valid() && clients == kept && Repr == old(Repr) && bufferSize == old(bufferSize)
      ensures forall c :: c in clients ==> c in views && Shows(c, views[c])
    {
      clients := kept;
    }

    /** What a clients_read pass does to each client. */
    ghost function ReadOutcomes(ready: set<int>, recv: int -> RecvResult): (m: map<Client, (Conn, bool)>)
      reads this, Repr
      requires Valid() && forall c :: c in clients ==> c.FitsRecv(ready, recv)
      ensures forall c :: c in clients ==> c in m && m[c] == c.ReadOutcome(ready, recv)
    {
      map c | c in clients :: c.ReadOutcome(ready, recv)
    }

    /** The clients a clients_read pass removes. */
    ghost function ReadRemoved(ready: set<int>, recv: int -> RecvResult): set<Client>
      reads this, Repr
      requires Valid() && forall c :: c in clients ==> c.FitsRecv(ready, recv)
    {
      set c | c in clients && c.ReadOutcome(ready, recv).1
    }

    /** Partway through a clients_read pass: the first k clients have been served as out
        records, and for the others out still records what serving them will do. */
    ghost predicate ReadProgress(k: nat, ready: set<int>, recv: int -> RecvResult, out: map<Client, (Conn, bool)>)
      reads this, Repr
    {
      && Valid() && k <= |clients|
      && (forall j :: 0 <= j < k ==> clients[j] in out && Shows(clients[j], out[clients[j]].0))
      && (forall j :: k <= j < |clients| ==> ReadPending(clients[j], ready, recv, out))
    }

    /** Before the pass no client has been served. */
    lemma ReadStart(ready: set<int>, recv: int -> RecvResult)
      requires Valid() && forall c :: c in clients ==> c.FitsRecv(ready, recv)
      ensures ReadProgress(0, ready, recv, ReadOutcomes(ready, recv))
    {
      forall j | 0 <= j < |clients|
        ensures ReadPending(clients[j], ready, recv, ReadOutcomes(ready, recv))
      {
        assert clients[j] in clients;
      }
    }

    /** After the pass every client of the list has been served. */
    lemma ReadFinish(ready: set<int>, recv: int -> RecvResult, out: map<Client, (Conn, bool)>)
      requires ReadProgress(|clients|, ready, recv, out)
      ensures forall c :: c in clients ==> c in out && Shows(c, out[c].0)
    {
      forall c | c in clients
        ensures c in out && Shows(c, out[c].0)
      {
        var j :| 0 <= j < |clients| && clients[j] == c;
      }
    }

    /** The part of clients_read that serves the client at position k: only that client's
        state changes, and it changes as out, the outcome of the whole pass, records. */
    method ServeReadAt(k: nat, ready: set<int>, recv: int -> RecvResult, ghost out: map<Client, (Conn, bool)>)
        returns (remove: bool)
      requires ReadProgress(k, ready, recv, out) && k < |clients|
      modifies Repr
      ensures ReadProgress(k + 1, ready, recv, out)
      ensures clients == old(clients) && Repr == old(Repr) && bufferSize == old(bufferSize)
      ensures remove == out[clients[k]].1
    {
      var c := clients[k];
      assert c in clients && ReadPending(c, ready, recv, out);
      remove := c.ServeRead(ready, recv);
      forall d | d in clients && d != c
        ensures d.Repr == old(d.Repr) && d.Repr !! c.Repr && this !in d.Repr
        ensures d.Shaped() && d.View() == old(d.View()) && d.fd == old(d.fd)
      {
        assert old(d.Repr !! c.Repr);
        assert unchanged(d) && unchanged(d.Repr);
      }
      assert Valid();
      forall j | 0 <= j < |clients| && j != k
        ensures j < k ==> clients[j] in out && Shows(clients[j], out[clients[j]].0)
        ensures j > k ==> ReadPending(clients[j], ready, recv, out)
      {
        var d := clients[j];
        assert d in clients && d != c;
        if j > k {
          assert old(ReadPending(d, ready, recv, out));
        }
      }
    }

    /** The loop of clients_read: every client is served in list order, and kept collects,
        in order, those whose pass does not ask for removal. */
    method ServeAllRead(ready: set<int>, recv: int -> RecvResult) returns (kept: seq<Client>)
      requires Valid()
      requires forall c :: c in clients ==> c.FitsRecv(ready, recv)
      modifies Repr
      ensures Valid() && clients == old(clients) && Repr == old(Repr) && bufferSize == old(bufferSize)
      ensures kept == Kept(old(clients), old(ReadRemoved(ready, recv))) && Distinct(kept)
      ensures forall c :: c in kept ==> Shows(c, old(c.ReadOutcome(ready, recv)).0)
    {
      ghost var out := ReadOutcomes(ready, recv);
      ghost var gone := ReadRemoved(ready, recv);
      ReadStart(ready, recv);
      var cs := clients;
      kept := [];
      for k := 0 to |cs|
        invariant ReadProgress(k, ready, recv, out)
        invariant clients == cs && Repr == old(Repr) && bufferSize == old(bufferSize)
        invariant kept == Kept(cs[..k], gone) && Distinct(kept)
      {
        var c := cs[k];
        DistinctStep(cs, kept, k);
        KeptStep(cs, k, gone);
        var remove := ServeReadAt(k, ready, recv, out);
        if !remove {
          kept := kept + [c];
        }
      }
      KeptStep(cs, |cs|, gone);
      ReadFinish(ready, recv, out);
    }

    /** clients_read: every client is served in list order, and a client whose pass asks for
        removal is unlinked from the list. recv gives what recv() returns on each socket. */
    method Read(ready: set<int>, recv: int -> RecvResult) returns (ret: int)
      requires Valid()
      requires forall c :: c in clients ==> c.FitsRecv(ready, recv)
      modifies Repr
      ensures Valid() && Repr == old(Repr) && bufferSize == old(bufferSize) && ret == 0
      ensures clients == Kept(old(clients), old(ReadRemoved(ready, recv)))
      ensures forall c :: c in clients ==> c.View() == old(c.ReadOutcome(ready, recv)).0
      ensures (forall c :: c in old(clients) ==> old(Settled(c, ready, false))) ==>
        forall c :: c in clients ==> Coherent(c.View())
    {
      if forall c :: c in clients ==> Settled(c, ready, false) {
        forall c | c in clients
          ensures Coherent(c.ReadOutcome(ready, recv).0)
        {
          c.ReadOutcomeCoherent(ready, recv);
        }
      }
      ghost var out := map c | c in clients :: c.ReadOutcome(ready, recv).0;
      var kept := ServeAllRead(ready, recv);
      Retain(kept, out);
      ret := 0;
    }

    /** What a clients_write pass does to each client; sockopt gives what
        getsockopt(SO_ERROR) reports on an upstream socket. */
    ghost function WriteOutcomes(ready: set<int>, send: int -> SendResult, sockopt: int -> SockOpt)
      : (m: map<Client, (Conn, bool)>)
      reads this, Repr
      requires Valid() && forall c :: c in clients ==> c.FitsSend(ready, send)
      ensures forall c :: c in clients ==>
        c in m && m[c] == c.WriteOutcome(ready, send, sockopt(c.fd[1]), bufferSize)
    {
      map c | c in clients :: c.WriteOutcome(ready, send, sockopt(c.fd[1]), bufferSize)
    }

    /** The clients a clients_write pass removes. */
    ghost function WriteRemoved(ready: set<int>, send: int -> SendResult, sockopt: int -> SockOpt): set<Client>
      reads this, Repr
      requires Valid() && forall c :: c in clients ==> c.FitsSend(ready, send)
    {
      set c | c in clients && c.WriteOutcome(ready, send, sockopt(c.fd[1]), bufferSize).1
    }

    /** Partway through a clients_write pass: the first k clients have been served as out
        records, and for the others out still records what serving them will do. */
    ghost predicate WriteProgress(k: nat, ready: set<int>, send: int -> SendResult, sockopt: int -> SockOpt,
                                  out: map<Client, (Conn, bool)>)
      reads this, Repr
    {
      && Valid() && k <= |clients|
      && (forall j :: 0 <= j < k ==> clients[j] in out && Shows(clients[j], out[clients[j]].0))
      && (forall j :: k <= j < |clients| ==> WritePending(clients[j], ready, send, sockopt, bufferSize, out))
    }

    /** Before the pass no client has been served. */
    lemma WriteStart(ready: set<int>, send: int -> SendResult, sockopt: int -> SockOpt)
      requires Valid() && forall c :: c in clients ==> c.FitsSend(ready, send)
      ensures WriteProgress(0, ready, send, sockopt, WriteOutcomes(ready, send, sockopt))
    {
      forall j | 0 <= j < |clients|
        ensures WritePending(clients[j], ready, send, sockopt, bufferSize, WriteOutcomes(ready, send, sockopt))
      {
        assert clients[j] in clients;
      }
    }

    /** After the pass every client of the list has been served. */
    lemma WriteFinish(ready: set<int>, send: int -> SendResult, sockopt: int -> SockOpt,
                      out: map<Client, (Conn, bool)>)
      requires WriteProgress(|clients|, ready, send, sockopt, out)
      ensures forall c :: c in clients ==> c in out && Shows(c, out[c].0)
    {
      forall c | c in clients
        ensures c in out && Shows(c, out[c].0)
      {
        var j :| 0 <= j < |clients| && clients[j] == c;
      }
    }

    /** The part of clients_write that serves the client at position k: only that client's
        state changes, and it changes as out records; buffers a completed connect allocates
        join the list's representation. */
    method ServeWriteAt(k: nat, ready: set<int>, send: int -> SendResult, sockopt: int -> SockOpt,
                        ghost out: map<Client, (Conn, bool)>) returns (remove: bool)
      requires WriteProgress(k, ready, send, sockopt, out) && k < |clients|
      modifies Repr
      ensures WriteProgress(k + 1, ready, send, sockopt, out)
      ensures clients == old(clients) && fresh(Repr - old(Repr)) && bufferSize == old(bufferSize)
      ensures remove == out[clients[k]].1
    {
      var c := clients[k];
      assert c in clients && WritePending(c, ready, send, sockopt, bufferSize, out);
      remove := c.ServeWrite(ready, send, sockopt(c.fd[1]), bufferSize);
      Repr := Repr + c.Repr;
      forall d | d in clients && d != c
        ensures d.Repr == old(d.Repr) && d.Repr !! c.Repr && this !in d.Repr
        ensures d.Shaped() && d.View() == old(d.View()) && d.fd == old(d.fd)
      {
        assert old(d.Repr !! c.Repr);
        assert unchanged(d) && unchanged(d.Repr);
      }
      assert Valid();
      forall j | 0 <= j < |clients| && j != k
        ensures j < k ==> clients[j] in out && Shows(clients[j], out[clients[j]].0)
        ensures j > k ==> WritePending(clients[j], ready, send, sockopt, bufferSize, out)
      {
        var d := clients[j];
        assert d in clients && d != c;
        if j > k {
          assert old(WritePending(d, ready, send, sockopt, bufferSize, out));
        }
      }
    }

    /** The loop of clients_write: every client is served in list order, and kept collects,
        in order, those whose pass does not ask for removal. */
    method ServeAllWrite(ready: set<int>, send: int -> SendResult, sockopt: int -> SockOpt)
        returns (kept: seq<Client>)
      requires Valid()
      requires forall c :: c in clients ==> c.FitsSend(ready, send)
      modifies Repr
      ensures Valid() && clients == old(clients) && fresh(Repr - old(Repr)) && bufferSize == old(bufferSize)
      ensures kept == Kept(old(clients), old(WriteRemoved(ready, send, sockopt))) && Distinct(kept)
      ensures forall c :: c in kept ==> Shows(c, old(c.WriteOutcome(ready, send, sockopt(c.fd[1]), bufferSize)).0)
    {
      ghost var out := WriteOutcomes(ready, send, sockopt);
      ghost var gone := WriteRemoved(ready, send, sockopt);
      WriteStart(ready, send, sockopt);
      var cs := clients;
      kept := [];
      for k := 0 to |cs|
        invariant WriteProgress(k, ready, send, sockopt, out)
        invariant clients == cs && fresh(Repr - old(Repr)) && bufferSize == old(bufferSize)
        invariant kept == Kept(cs[..k], gone) && Distinct(kept)
      {
        var c := cs[k];
        DistinctStep(cs, kept, k);
        KeptStep(cs, k, gone);
        ghost var before := Repr;
        label L:
        var remove := ServeWriteAt(k, ready, send, sockopt, out);
        forall o | o in Repr && o !in old(Repr)
          ensures fresh(o)
        {
          if o !in before {
            assert !old@L(allocated(o));
          }
        }
        if !remove {
          kept := kept + [c];
        }
      }
      KeptStep(cs, |cs|, gone);
      WriteFinish(ready, send, sockopt, out);
    }

    /** clients_write: every client is served in list order, and a client whose pass asks for
        removal is unlinked from the list. send gives what send() returns on each socket and
        sockopt what getsockopt(SO_ERROR) reports on an upstream socket. */
    method Write(ready: set<int>, send: int -> SendResult, sockopt: int -> SockOpt) returns (ret: int)
      requires Valid()
      requires forall c :: c in clients ==> c.FitsSend(ready, send)
      modifies Repr
      ensures Valid() && fresh(Repr - old(Repr)) && bufferSize == old(bufferSize) && ret == 0
      ensures clients == Kept(old(clients), old(WriteRemoved(ready, send, sockopt)))
      ensures forall c :: c in clients ==>
        c.View() == old(c.WriteOutcome(ready, send, sockopt(c.fd[1]), bufferSize)).0
      ensures (forall c :: c in old(clients) ==> old(Settled(c, ready, true))) ==>
        forall c :: c in clients ==> Coherent(c.View())
    {
      if forall c :: c in clients ==> Settled(c, ready, true) {
        forall c | c in clients
          ensures Coherent(c.WriteOutcome(ready, send, sockopt(c.fd[1]), bufferSize).0)
        {
          c.WriteOutcomeCoherent(ready, send, sockopt(c.fd[1]), bufferSize);
        }
      }
      ghost var out := WriteOutcomes(ready, send, sockopt);
      var kept := ServeAllWrite(ready, send, sockopt);
      Retain(kept, map c | c in out :: out[c].0);
      ret := 0;
    }
  }
}
