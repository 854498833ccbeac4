/** A run on which a relay loses octets: both directions become blocked by events of one poll. */
module RelayLoss {
  import opened SessionSpec
  import opened SessionRuns
  import opened Relay
  import opened SampleRuns

  /** A greeting that offers no authentication, and as well a command to connect to an IPv4 address. */
  function Greeting(): (data: Block)
    ensures data[0] == 5 && data[1] == 1 && data[2] == 0 && data[3] == 1
  {
    [5, 1, 0, 1] + seq(BUFFER_SIZE - 4, _ => 0)
  }

  function Answers(sent: Sent): Env {
    Env(Data(RecvBuffer(Greeting(), 1)), sent, 2, 10, true, 0, NoResponse, true, true, true, true, 0)
  }

  function Happens(k: Kind, flag: Flag, sent: Sent): Act {
    Deliver(k, {flag}, Answers(sent))
  }

  lemma Authenticates(p: Params) returns (acts: seq<Act>)
    requires p.Method() == NoAuth
    ensures Run(p, acts).Some?
    ensures var w := Run(p, acts).value; w.outcome == Keep && w.view.state == Authenticated && ClientSock in w.polled
  {
    hide Run, Authorised, TakenFrom;
    acts := Start(p);
    acts := Polled(p, acts);
    assert Methods(Greeting())[0] == 0;
    acts := Happened(p, acts, ClientSock, Read, Answers(WouldBlock));
    acts := Polled(p, acts);
  }

  /** A relay through which nothing has gone yet, and whose both ends have just been polled for reading. */
  ghost predicate Idle(w: World) {
    && w.outcome == Keep && w.view.state == Connected && NothingRelayed(w.view)
    && ClientSock in w.polled && RemoteSock in w.polled
    && w.polled[ClientSock] == LISTENING && w.polled[RemoteSock] == LISTENING
  }

  lemma Connects(p: Params) returns (acts: seq<Act>)
    requires p.Method() == NoAuth
    ensures Run(p, acts).Some? && Idle(Run(p, acts).value)
  {
    hide Run, Authorised, TakenFrom;
    acts := Authenticates(p);
    RunKeeps(p, acts);
    acts := Happened(p, acts, ClientSock, Read, Answers(WouldBlock));
    acts := Polled(p, acts);
    acts := Happened(p, acts, RemoteSock, Write, Answers(WouldBlock));
    RunKeeps(p, acts);
    acts := Polled(p, acts);
  }

  /** The remote end has sent an octet that the client does not take yet; the client's end is still to be
      reported readable. */
  ghost predicate OneBlocked(w: World) {
    && w.outcome == Keep && w.view.state == Connected && Conserved(w.view)
    && |w.view.clientBuffer| == 1 && w.view.remoteBuffer == []
    && ClientSock in w.polled && Read in w.polled[ClientSock]
  }

  lemma OneBlocks(p: Params) returns (acts: seq<Act>)
    requires p.Method() == NoAuth
    ensures Run(p, acts).Some? && OneBlocked(Run(p, acts).value)
  {
    hide Run, Authorised, TakenFrom;
    acts := Connects(p);
    RunKeeps(p, acts);
    StepCounts(p, Run(p, acts).value, Happens(RemoteSock, Read, WouldBlock));
    acts := Happened(p, acts, RemoteSock, Read, Answers(WouldBlock));
  }

  /** Both ends send before the poller is asked again, and neither takes what the other sent. */
  lemma BothBlock(p: Params) returns (acts: seq<Act>)
    requires p.Method() == NoAuth
    ensures Run(p, acts).Some?
    ensures var w := Run(p, acts).value;
      && w.outcome == Keep && w.view.state == Connected && Conserved(w.view)
      && |w.view.clientBuffer| == 1 && |w.view.remoteBuffer| == 1
      && RemoteSock in w.polled && w.polled[RemoteSock] == SENDING
  {
    hide Run, Authorised, TakenFrom;
    acts := OneBlocks(p);
    RunKeeps(p, acts);
    StepCounts(p, Run(p, acts).value, Happens(ClientSock, Read, WouldBlock));
    acts := Happened(p, acts, ClientSock, Read, Answers(WouldBlock));
    RunKeeps(p, acts);
    acts := Polled(p, acts);
  }

  /** An octet for the client is scheduled, and the remote end, of which no more should be read, has been
      polled for reading. */
  ghost predicate ReadAgain(w: World) {
    && w.outcome == Keep && w.view.state == Connected && Conserved(w.view) && |w.view.clientBuffer| == 1
    && RemoteSock in w.polled && Read in w.polled[RemoteSock]
  }

  lemma Flushes(p: Params) returns (acts: seq<Act>)
    requires p.Method() == NoAuth
    ensures Run(p, acts).Some? && ReadAgain(Run(p, acts).value)
  {
    hide Run, Authorised, TakenFrom;
    acts := BothBlock(p);
    RunKeeps(p, acts);
    StepCounts(p, Run(p, acts).value, Happens(RemoteSock, Write, Wrote(1)));
    acts := Happened(p, acts, RemoteSock, Write, Answers(Wrote(1)));
    acts := Polled(p, acts);
  }

  /** Without the assumption that only one direction is blocked at a time a relay can lose octets and
      go on: the end that is written first makes both ends be read again, although octets for the
      other are still scheduled. */
  lemma OctetsCanBeLost(p: Params) returns (acts: seq<Act>)
    requires p.Method() == NoAuth
    ensures Run(p, acts).Some?
    ensures var w := Run(p, acts).value;
      w.outcome == Keep && w.view.state == Connected && Shortfall(w.view) == 1 && !Conserved(w.view)
  {
    hide Run, Conserved, Shortfall, Authorised, TakenFrom;
    acts := Flushes(p);
    RunKeeps(p, acts);
    ConservedNoShortfall(Run(p, acts).value.view);
    StepCounts(p, Run(p, acts).value, Happens(RemoteSock, Read, WouldBlock));
    acts := Happened(p, acts, RemoteSock, Read, Answers(WouldBlock));
    if Conserved(Run(p, acts).value.view) {
      ConservedNoShortfall(Run(p, acts).value.view);
    }
  }
}
