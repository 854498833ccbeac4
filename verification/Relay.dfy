/** What a relay does with the octets: nothing is lost, added or reordered on runs where only one
    direction is blocked at a time, and exactly by how many octets what has gone on or is scheduled falls
    short of what came otherwise. Which octets those are is told in `OctetOrigins`. */
module Relay {
  import opened Octets
  import opened SessionSpec
  import opened SessionRuns
  import opened SessionSafety

  function Came(v: View, d: Direction): seq<byte> {
    match d case ToRemote => v.log.fromClient case ToClient => v.log.fromRemote
  }

  function Gone(v: View, d: Direction): seq<byte> {
    match d case ToRemote => v.log.toRemote case ToClient => v.log.toClient
  }

  function Opposite(d: Direction): Direction {
    match d case ToRemote => ToClient case ToClient => ToRemote
  }

  predicate ConservedIn(v: View, d: Direction) {
    Came(v, d) == Gone(v, d) + Scheduled(v, d)
  }

  /** What came from one peer is what went to the other, followed by what is scheduled for it. */
  predicate Conserved(v: View) {
    ConservedIn(v, ToRemote) && ConservedIn(v, ToClient)
  }

  predicate OneWayBlocked(v: View) {
    v.clientBuffer == [] || v.remoteBuffer == []
  }

  /** A blocked socket waits to be written, its peer is not read; otherwise both are read. */
  predicate InterestsMatch(v: View) {
    if v.clientBuffer != [] then v.regs == map[ClientSock := SENDING, RemoteSock := WAITING]
    else if v.remoteBuffer != [] then v.regs == map[ClientSock := WAITING, RemoteSock := SENDING]
    else v.regs == map[ClientSock := LISTENING, RemoteSock := LISTENING]
  }

  /** No event that is still to come reads a peer while octets are scheduled for the other. */
  predicate NoStaleRead(w: World) {
    && (w.view.clientBuffer != [] && RemoteSock in w.polled ==> Read !in w.polled[RemoteSock])
    && (w.view.remoteBuffer != [] && ClientSock in w.polled ==> Read !in w.polled[ClientSock])
  }

  predicate Sound(w: World) {
    Conserved(w.view) && OneWayBlocked(w.view) && InterestsMatch(w.view) && NoStaleRead(w)
  }

  /** The assumptions about a step: a flush of scheduled octets sends all or nothing, and afterwards the
      directions are not both blocked. */
  predicate CalmStep(p: Params, w: World, a: Act, w': World) {
    !PartialFlush(w.view, a) && OneWayBlocked(w'.view)
  }

  ghost predicate Calm(p: Params, acts: seq<Act>)
    requires Run(p, acts).Some?
  {
    acts == [] ||
    var before := acts[..|acts| - 1];
    PrefixOfRun(p, acts);
    Calm(p, before) && CalmStep(p, Run(p, before).value, acts[|acts| - 1], Run(p, acts).value)
  }

  lemma NothingRelayedYet(p: Params, w: World, a: Act)
    requires Inv(p, w) && Enabled(w, a) && w.view.state != Connected
    requires Next(p, w, a).view.state == Connected && Next(p, w, a).outcome == Keep
    ensures Sound(Next(p, w, a))
  {
    hide Authorised, TakenFrom, ProcessClient, ProcessClientEvent, ProcessDnsEvent, ProcessUdpEvent, TryConnectNext,
      SocketSend;
    ConnectedExactly(p, w, a);
  }

  /** How many of `size` octets a send takes. */
  function Taken(sent: Sent, size: nat): (n: nat)
    ensures n <= size
  {
    if sent.Wrote? then if sent.count > size then size else sent.count else 0
  }

  /** Sending touches one direction only, and nothing else but the registrations. */
  lemma SendTouches(v: View, d: Direction, buffer: Option<RecvBuffer>, sent: Sent)
    requires buffer.Some? ==> buffer.value.Valid()
    ensures var r, o := SocketSend(v, d, buffer, sent).view, Opposite(d);
      && Came(r, d) == Came(v, d) && Came(r, o) == Came(v, o)
      && Gone(r, o) == Gone(v, o) && Scheduled(r, o) == Scheduled(v, o) && r.state == v.state
  {
  }

  /** Fresh octets: what is taken has gone, the rest is scheduled. */
  lemma FreshSent(v: View, d: Direction, buffer: RecvBuffer, sent: Sent)
    requires buffer.Valid() && Scheduled(v, d) == []
    ensures var r, n, data := SocketSend(v, d, Some(buffer), sent), Taken(sent, buffer.size), buffer.Received();
      r.outcome == Keep ==>
        && Gone(r.view, d) == Gone(v, d) + data[..n] && Scheduled(r.view, d) == data[n..]
        && r.view.regs == if n == |data| then v.regs else Listen(v, d, {Write, Closed}, {Closed}).regs
  {
  }

  /** Scheduled octets: all of them have gone, or none. */
  lemma FlushSent(v: View, d: Direction, sent: Sent)
    requires Scheduled(v, d) != []
    ensures var r, out := SocketSend(v, d, None, sent), Scheduled(v, d);
      r.outcome == Keep ==>
        if sent == WouldBlock then r.view == v
        else
          && Gone(r.view, d) == Gone(v, d) + out && Scheduled(r.view, d) == []
          && r.view.regs == Listen(v, d, {Read, Closed}, {Read, Closed}).regs
  {
    assert Scheduled(v, d)[..|Scheduled(v, d)|] == Scheduled(v, d);
  }

  lemma FlushIsSound(p: Params, w: World, d: Direction, sent: Sent)
    requires Relay(p, w) && Sound(w) && Target(d) in w.polled && Write in w.polled[Target(d)]
    requires !(sent.Wrote? && sent.count < |Scheduled(w.view, d)|)
    ensures var r := SocketSend(w.view, d, None, sent);
      r.outcome == Keep ==> Sound(World(r.view, Remove(w.polled, Target(d)), r.outcome))
  {
    hide SocketSend, Authorised, TakenFrom;
    FlushSent(w.view, d, sent);
    SendTouches(w.view, d, None, sent);
  }

  lemma ForwardIsSound(p: Params, w: World, d: Direction, buffer: RecvBuffer, sent: Sent)
    requires Relay(p, w) && Sound(w) && Origin(d) in w.polled && buffer.Valid() && Scheduled(w.view, d) == []
    ensures
      var r := SocketSend(WithReceived(w.view, d, buffer.Received()), d, Some(buffer), sent);
      r.outcome == Keep && OneWayBlocked(r.view) ==> Sound(World(r.view, Remove(w.polled, Origin(d)), r.outcome))
  {
    hide SocketSend, Authorised, TakenFrom;
    var v := WithReceived(w.view, d, buffer.Received());
    FreshSent(v, d, buffer, sent);
    SendTouches(v, d, Some(buffer), sent);
    FreshConserved(w.view, d, buffer, sent);
  }

  lemma FreshConserved(v: View, d: Direction, buffer: RecvBuffer, sent: Sent)
    requires buffer.Valid() && Scheduled(v, d) == []
    ensures var r := SocketSend(WithReceived(v, d, buffer.Received()), d, Some(buffer), sent);
      r.outcome == Keep ==>
        ShortfallIn(r.view, d) == ShortfallIn(v, d) && (ConservedIn(v, d) ==> ConservedIn(r.view, d))
  {
    hide SocketSend;
    var v', data, n := WithReceived(v, d, buffer.Received()), buffer.Received(), Taken(sent, buffer.size);
    FreshSent(v', d, buffer, sent);
    SendTouches(v', d, Some(buffer), sent);
    assert data == data[..n] + data[n..];
    assert Gone(v, d) + data == Gone(v, d) + data[..n] + data[n..];
  }

  /** By how many octets what has gone on or is scheduled is less than what came. */
  function ShortfallIn(v: View, d: Direction): int {
    |Came(v, d)| - |Gone(v, d)| - |Scheduled(v, d)|
  }

  function WithReceived(v: View, d: Direction, data: seq<byte>): View {
    match d
    case ToRemote => v.(log := v.log.(fromClient := v.log.fromClient + data))
    case ToClient => v.(log := v.log.(fromRemote := v.log.fromRemote + data))
  }

  lemma PollIsSound(p: Params, w: World)
    requires Inv(p, w) && Enabled(w, Poll) && Sound(w)
    ensures Sound(Next(p, w, Poll))
  {
  }

  lemma OnlyRead(flags: Interest)
    requires flags != {} && Closed !in flags && Error !in flags && Write !in flags
    ensures Read in flags
  {
    forall f | f in flags ensures f == Read {
      match f case Read => case Write => case Closed => case Error =>
    }
    assert Read !in flags ==> flags <= {};
  }

  lemma StepIsSound(p: Params, w: World, a: Act)
    requires Inv(p, w) && Enabled(w, a) && w.view.state == Connected && Sound(w)
    requires CalmStep(p, w, a, Next(p, w, a))
    ensures Next(p, w, a).outcome == Keep ==> Sound(Next(p, w, a))
  {
    hide SocketSend, Conserved, InterestsMatch;
    if a == Poll {
      PollIsSound(p, w);
    } else if Closed !in a.flags && Error !in a.flags {
      if Write in a.flags {
        FlushIsSound(p, w, if a.kind == ClientSock then ToClient else ToRemote, a.env.sent);
      } else if a.env.recv.Data? {
        OnlyRead(a.flags);
        ForwardIsSound(p, w, if a.kind == ClientSock then ToRemote else ToClient, a.env.recv.buffer, a.env.sent);
      }
    }
  }

  /** Relay conservation over whole runs: as long as the directions are never both blocked and every
      flush sends all or nothing, what each peer sent has reached the other in order, except for what
      is scheduled, and the poller waits for exactly the blocked socket. */
  lemma {:induction false} RelayConservation(p: Params, acts: seq<Act>)
    requires Run(p, acts).Some? && Calm(p, acts)
    ensures var w := Run(p, acts).value;
      w.outcome == Keep && w.view.state == Connected ==> Sound(w)
    decreases |acts|
  {
    hide Next, Sound, CalmStep, Inv;
    if acts != [] {
      var before, a := acts[..|acts| - 1], acts[|acts| - 1];
      PrefixOfRun(p, acts);
      RelayConservation(p, before);
      RunKeeps(p, before);
      RelayStep(p, Run(p, before).value, a);
    }
  }

  lemma RelayStep(p: Params, w: World, a: Act)
    requires Inv(p, w) && Enabled(w, a) && CalmStep(p, w, a, Next(p, w, a))
    requires w.view.state == Connected ==> Sound(w)
    ensures var w' := Next(p, w, a); w'.outcome == Keep && w'.view.state == Connected ==> Sound(w')
  {
    hide Next, Sound, CalmStep, Inv;
    if w.view.state == Connected {
      StepIsSound(p, w, a);
    } else if Next(p, w, a).view.state == Connected && Next(p, w, a).outcome == Keep {
      NothingRelayedYet(p, w, a);
    }
  }

  // ---------- without the assumptions ----------

  /** Octets are read from one peer while others are scheduled for the other. */
  predicate ReadsOverScheduled(v: View, a: Act) {
    && v.state == Connected
    && a.Deliver? && Write !in a.flags && Closed !in a.flags && Error !in a.flags && a.env.recv.Data?
    && ((a.kind == ClientSock && v.remoteBuffer != []) || (a.kind == RemoteSock && v.clientBuffer != []))
  }

  /** How many octets the event reads over scheduled ones. */
  function ReadOver(v: View, a: Act): nat {
    if ReadsOverScheduled(v, a) then a.env.recv.buffer.size else 0
  }

  /** How many octets all events of a run have read over scheduled ones. */
  ghost function ReadOverOn(p: Params, acts: seq<Act>): nat
    requires Run(p, acts).Some?
    decreases |acts|
  {
    if acts == [] then 0
    else
      var before := acts[..|acts| - 1];
      PrefixOfRun(p, acts);
      ReadOverOn(p, before) + ReadOver(Run(p, before).value.view, acts[|acts| - 1])
  }

  /** The same for both directions together. */
  function Shortfall(v: View): int {
    ShortfallIn(v, ToRemote) + ShortfallIn(v, ToClient)
  }

  /** The shortfall grows by the number of octets that are read over scheduled ones, whatever the send
      does. */
  lemma OverCounts(v: View, d: Direction, buffer: RecvBuffer, sent: Sent)
    requires buffer.Valid() && |Scheduled(v, d)| <= BUFFER_SIZE && Scheduled(v, d) != []
    ensures var r := SocketSend(WithReceived(v, d, buffer.Received()), d, Some(buffer), sent);
      r.outcome == Keep ==> ShortfallIn(r.view, d) == ShortfallIn(v, d) + buffer.size
  {
  }

  lemma SendCounts(v: View, d: Direction, buffer: RecvBuffer, sent: Sent)
    requires buffer.Valid() && |v.clientBuffer| <= BUFFER_SIZE && |v.remoteBuffer| <= BUFFER_SIZE
    ensures var r := SocketSend(WithReceived(v, d, buffer.Received()), d, Some(buffer), sent);
      r.outcome == Keep ==>
        && Shortfall(r.view) == Shortfall(v) + (if Scheduled(v, d) == [] then 0 else buffer.size)
        && (Conserved(v) && Scheduled(v, d) == [] ==> Conserved(r.view))
  {
    hide SocketSend;
    SendTouches(WithReceived(v, d, buffer.Received()), d, Some(buffer), sent);
    if Scheduled(v, d) == [] {
      FreshConserved(v, d, buffer, sent);
    } else {
      OverCounts(v, d, buffer, sent);
    }
  }

  lemma FlushCounts(v: View, d: Direction, sent: Sent)
    requires Scheduled(v, d) != []
    ensures var r := SocketSend(v, d, None, sent);
      r.outcome == Keep ==> Shortfall(r.view) == Shortfall(v) && (Conserved(v) ==> Conserved(r.view))
  {
    hide SocketSend;
    FlushSent(v, d, sent);
    SendTouches(v, d, None, sent);
  }

  /** One event of a relay: the shortfall grows by what it reads over scheduled octets. */
  lemma StepCounts(p: Params, w: World, a: Act)
    requires Inv(p, w) && Enabled(w, a) && w.view.state == Connected && Next(p, w, a).outcome == Keep
    ensures var v := Next(p, w, a).view;
      && Shortfall(v) == Shortfall(w.view) + ReadOver(w.view, a)
      && (Conserved(w.view) && !ReadsOverScheduled(w.view, a) ==> Conserved(v))
  {
    hide SocketSend, Conserved, Shortfall, Authorised, TakenFrom;
    if a.Deliver? {
      if Write in a.flags {
        FlushCounts(w.view, if a.kind == ClientSock then ToClient else ToRemote, a.env.sent);
      } else {
        SendCounts(w.view, if a.kind == ClientSock then ToRemote else ToClient, a.env.recv.buffer, a.env.sent);
      }
    }
  }

  lemma NoRelayNoShortfall(p: Params, w: World)
    requires Inv(p, w) && w.outcome == Keep && w.view.state != Connected
    ensures Conserved(w.view) && Shortfall(w.view) == 0 && w.view.clientBuffer == [] && w.view.remoteBuffer == []
  {
    hide Authorised, TakenFrom;
  }

  lemma NewRelayNoShortfall(p: Params, w: World, a: Act)
    requires Inv(p, w) && Enabled(w, a) && w.view.state != Connected
    requires Next(p, w, a).view.state == Connected && Next(p, w, a).outcome == Keep
    ensures Conserved(Next(p, w, a).view) && Shortfall(Next(p, w, a).view) == 0
  {
    hide Next, Inv, Shortfall, Conserved;
    NothingRelayedYet(p, w, a);
    ConservedNoShortfall(Next(p, w, a).view);
  }

  lemma ConservedNoShortfall(v: View)
    requires Conserved(v)
    ensures Shortfall(v) == 0
  {
  }

  lemma AnyStepCounts(p: Params, w: World, a: Act)
    requires Inv(p, w) && Enabled(w, a) && Next(p, w, a).outcome == Keep
    ensures var v := Next(p, w, a).view;
      && Shortfall(v) == Shortfall(w.view) + ReadOver(w.view, a)
      && (Conserved(w.view) && !ReadsOverScheduled(w.view, a) ==> Conserved(v))
  {
    hide Next, Inv, Conserved, Shortfall;
    if w.view.state == Connected {
      StepCounts(p, w, a);
    } else {
      NoRelayNoShortfall(p, w);
      StepKeeps(p, w, a);
      if Next(p, w, a).view.state == Connected {
        NewRelayNoShortfall(p, w, a);
      } else {
        NoRelayNoShortfall(p, Next(p, w, a));
      }
    }
  }

  /** On every run that a session survives, what has gone on or is scheduled falls short of what came by as
      many octets as were read over scheduled ones, and what one peer sent is what went to the other,
      followed by what is scheduled, if and only if no event read over scheduled octets. */
  lemma {:induction false} ShortfallExactly(p: Params, acts: seq<Act>)
    requires Run(p, acts).Some? && Run(p, acts).value.outcome == Keep
    ensures var v := Run(p, acts).value.view;
      Shortfall(v) == ReadOverOn(p, acts) && (Conserved(v) <==> ReadOverOn(p, acts) == 0)
    decreases |acts|
  {
    hide Next, Inv, Shortfall, ReadOver, Conserved;
    if acts == [] {
      NoShortfallAtFirst();
    } else {
      var before, a := acts[..|acts| - 1], acts[|acts| - 1];
      PrefixOfRun(p, acts);
      ShortfallExactly(p, before);
      RunKeeps(p, before);
      AnyStepCounts(p, Run(p, before).value, a);
      LossStep(Run(p, before).value.view, Run(p, acts).value.view, a, ReadOverOn(p, before));
    }
  }

  lemma NoShortfallAtFirst()
    ensures Conserved(Initial()) && Shortfall(Initial()) == 0
  {
  }

  lemma LossStep(v: View, v': View, a: Act, n: nat)
    requires Shortfall(v') == Shortfall(v) + ReadOver(v, a) && Shortfall(v) == n && (Conserved(v) <==> n == 0)
    requires Conserved(v) && !ReadsOverScheduled(v, a) ==> Conserved(v')
    requires a.Deliver? && a.env.recv.Data? ==> a.env.recv.buffer.Valid()
    ensures Conserved(v') <==> n + ReadOver(v, a) == 0
  {
    hide Shortfall, Conserved;
    if Conserved(v') {
      ConservedNoShortfall(v');
    }
  }
}
