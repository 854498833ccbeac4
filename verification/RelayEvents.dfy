/** What one event of a relay does: which octets go on, which are scheduled, and what is waited for. */
module RelayEvents {
  import opened Octets
  import opened SessionSpec
  import opened SessionRuns
  import opened Relay

  /** A writable socket is flushed; otherwise what comes is for the other one. */
  function DirectionOf(a: Act): Direction
    requires a.Deliver?
  {
    if (a.kind == ClientSock) == (Write in a.flags) then ToClient else ToRemote
  }

  /** What the event reads. */
  function Incoming(a: Act): seq<byte>
    requires a.Deliver? && EnvOk(a.env)
  {
    if Write in a.flags || !a.env.recv.Data? then [] else a.env.recv.buffer.Received()
  }

  /** Octets are sent from the front of `out`, which is the queue unless that is empty. What is left is
      scheduled, and waited for, if it was not yet; a queue that was sent in part is replaced by what stands at
      the same places of the buffer read into. */
  predicate Relayed(v: View, v': View, d: Direction, incoming: seq<byte>, block: seq<byte>, sent: Sent) {
    var out := if Scheduled(v, d) != [] then Scheduled(v, d) else incoming;
    var n := SentOf(out, sent);
    && Gone(v', d) == Gone(v, d) + out[..n] && Came(v', d) == Came(v, d) + incoming
    && Left(v, v', d, out, block, n, sent)
  }

  /** How many of these octets a send takes. */
  function SentOf(out: seq<byte>, sent: Sent): (n: nat)
    ensures n <= |out|
  {
    if !sent.Wrote? then 0 else if sent.count < |out| then sent.count else |out|
  }

  /** What is scheduled and waited for when `n` octets of `out` were sent. */
  predicate Left(v: View, v': View, d: Direction, out: seq<byte>, block: seq<byte>, n: nat, sent: Sent)
    requires n <= |out|
  {
    var queue, now := Scheduled(v, d), Scheduled(v', d);
    if n == |out| then now == [] && Interests(v, v', d, queue != [], {Read, Closed}, {Read, Closed})
    else if queue == [] then now == out[n..] && Interests(v, v', d, true, {Write, Closed}, {Closed})
    else
      && v'.regs == v.regs
      && if sent.Wrote? then |out| <= |block| && now == block[n..|out|] else now == queue
  }

  /** The interests in the socket that is written and in the other one. */
  predicate Interests(v: View, v': View, d: Direction, change: bool, target: Interest, origin: Interest) {
    v'.regs == if change then v.regs[Target(d) := target][Origin(d) := origin] else v.regs
  }

  predicate Untouched(v: View, v': View, d: Direction) {
    Gone(v', d) == Gone(v, d) && Came(v', d) == Came(v, d) && Scheduled(v', d) == Scheduled(v, d)
  }

  lemma SentExactly(v: View, d: Direction, buffer: Option<RecvBuffer>, sent: Sent)
    requires buffer.Some? ==> buffer.value.Valid()
    requires Scheduled(v, d) != [] || buffer.Some?
    requires ClientSock in v.regs && RemoteSock in v.regs
    ensures
      var r := SocketSend(v, d, buffer, sent);
      var out := if Scheduled(v, d) != [] then Scheduled(v, d) else buffer.value.Received();
      var n := SentOf(out, sent);
      r.outcome == Keep ==>
        && Gone(r.view, d) == Gone(v, d) + out[..n] && Came(r.view, d) == Came(v, d)
        && Untouched(v, r.view, Opposite(d))
        && Left(v, r.view, d, out, if buffer.Some? then buffer.value.block else [], n, sent)
  {
  }

  /** The buffer that is read into; none when a socket is flushed. */
  function ReadInto(a: Act): seq<byte>
    requires a.Deliver?
  {
    if Write in a.flags || !a.env.recv.Data? then [] else a.env.recv.buffer.block
  }

  lemma StepRelays(p: Params, w: World, a: Act)
    requires Inv(p, w) && Enabled(w, a) && a.Deliver? && w.view.state == Connected && Next(p, w, a).outcome == Keep
    ensures var d, v' := DirectionOf(a), Next(p, w, a).view;
      Relayed(w.view, v', d, Incoming(a), ReadInto(a), a.env.sent) && Untouched(w.view, v', Opposite(d))
  {
    hide Authorised, TakenFrom, SocketSend, Left;
    var d, v := DirectionOf(a), w.view;
    if Write in a.flags {
      SentExactly(v, d, None, a.env.sent);
    } else if a.env.recv.Data? {
      var data := a.env.recv.buffer.Received();
      var v1 := WithReceived(v, d, data);
      SentExactly(v1, d, Some(a.env.recv.buffer), a.env.sent);
      SameButRead(v, v1, Next(p, w, a).view, d, data, ReadInto(a), a.env.sent);
    }
  }

  lemma SameButRead(v: View, v1: View, v': View, d: Direction, data: seq<byte>, block: seq<byte>, sent: Sent)
    requires v1 == WithReceived(v, d, data)
    requires var out := if Scheduled(v, d) != [] then Scheduled(v, d) else data;
      && Gone(v', d) == Gone(v1, d) + out[..SentOf(out, sent)] && Came(v', d) == Came(v1, d)
      && Untouched(v1, v', Opposite(d)) && Left(v1, v', d, out, block, SentOf(out, sent), sent)
    ensures Relayed(v, v', d, data, block, sent) && Untouched(v, v', Opposite(d))
  {
  }

  /** What an event of a run does that a relay survives, in its own direction; the other direction is not
      touched. */
  lemma RelayedExactly(p: Params, acts: seq<Act>, a: Act)
    requires Run(p, acts).Some? && Enabled(Run(p, acts).value, a) && a.Deliver?
    requires Run(p, acts).value.view.state == Connected && Run(p, acts + [a]).Some?
    requires Run(p, acts + [a]).value.outcome == Keep
    ensures var v, v', d := Run(p, acts).value.view, Run(p, acts + [a]).value.view, DirectionOf(a);
      Relayed(v, v', d, Incoming(a), ReadInto(a), a.env.sent) && Untouched(v, v', Opposite(d))
  {
    hide Next, Inv, Relayed, Untouched;
    RunKeeps(p, acts);
    assert (acts + [a])[..|acts|] == acts;
    StepRelays(p, Run(p, acts).value, a);
  }
}
