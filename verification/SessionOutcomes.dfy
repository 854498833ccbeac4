/** What every event of a run comes to, in terms of its flags, the octets read and what the sockets answer:
    whether the session is dropped, which state it goes to, which reply and which connection are attempted. */
module SessionOutcomes {
  import opened Octets
  import opened Names
  import opened DnsSockets
  import opened WireNames
  import opened SessionSpec
  import opened SessionRuns
  import opened SessionSafety

  // ---------- what is asked for ----------

  /** The peer has closed, or there is an error. */
  predicate Over(a: Act)
    requires a.Deliver?
  {
    Closed in a.flags || Error in a.flags
  }

  /** The octet of the method that the server asks for: 0 for none, 2 for user name and password. */
  function WantedMethod(p: Params): byte {
    if p.username == [] && p.password == [] then 0 else 2
  }

  /** The lengths in the login exceed what was received, as far as they are compared with it, or user name or
      password are others. */
  predicate LoginRefused(p: Params, buffer: RecvBuffer) {
    var d, size := buffer.block, buffer.size;
    var n := d[1] as int;
    var m := d[2 + n] as int;
    || (size >= 2 && n > size - 2)
    || (size >= n + 3 && m > size - n - 3)
    || (WantedMethod(p) == 2 && (d[2..2 + n] != p.username || d[3 + n..3 + n + m] != p.password))
  }

  /** The name and the port in a request of address type 3. */
  function NameAsked(d: Block): seq<byte> { d[5..5 + d[4] as int] }

  function PortAsked(d: Block): nat { d[5 + d[4] as int] as int * 256 + d[6 + d[4] as int] }

  /** The address in a request of address type 1 or 4. */
  function AddressAsked(d: Block): Address {
    if d[3] == 1 then Address(true, d[4..8], d[8] as int * 256 + d[9])
    else Address(false, d[4..20], d[20] as int * 256 + d[21])
  }

  /** The name can be asked for, and the query was not sent. */
  ghost predicate QueryFails(d: Block, e: Env) {
    e.canOpen && WhyNot(NameAsked(d)) == None && e.query <= 0
  }

  /** An association has its sockets, but cannot be bound or its reply is not sent. */
  predicate AssociationFails(e: Env) {
    e.canOpen && e.named && (!e.bound || e.replySent == 0)
  }

  /** The packet is passed on: it is short, or from the client and with a header that it is longer than. */
  predicate PassedOn(buffer: RecvBuffer, e: Env) {
    || buffer.size <= 10
    || (e.fromClient && (buffer.block[3] == 1 || (buffer.block[3] == 4 && buffer.size > 22)))
  }

  // ---------- when the session is dropped ----------

  predicate GreetingDrops(p: Params, a: Act)
    requires a.Deliver?
  {
    || Over(a) || !a.env.recv.Data?
    || var d := a.env.recv.buffer.block;
       d[0] != 5 || WantedMethod(p) !in d[2..2 + d[1] as int] || a.env.authSent == -1
  }

  predicate LoginDrops(p: Params, a: Act)
    requires a.Deliver?
  {
    Over(a) || !a.env.recv.Data? || LoginRefused(p, a.env.recv.buffer)
  }

  ghost predicate RequestRefused(p: Params, d: Block, e: Env) {
    || d[1] !in {1, 3} || d[3] !in {1, 3, 4}
    || if d[3] == 3 then !p.hasDns || QueryFails(d, e) else d[1] == 3 && AssociationFails(e)
  }

  ghost predicate RequestDrops(p: Params, a: Act)
    requires a.Deliver?
  {
    Over(a) || !a.env.recv.Data? || RequestRefused(p, a.env.recv.buffer.block, a.env)
  }

  /** `d` is the request. */
  predicate ResponseDrops(d: Block, a: Act)
    requires a.Deliver?
  {
    || a.kind == ClientSock || Over(a) || !a.env.response.Received?
    || match LookUp(a.env.response.octets, PortAsked(d))
       case Found(addresses) => addresses == [] || (d[1] == 3 && AssociationFails(a.env))
       case _ => false
  }

  predicate ConnectingDrops(log: Log, a: Act)
    requires a.Deliver?
  {
    || a.kind == ClientSock || Closed in a.flags
    || if Error in a.flags then |log.attempts| == |log.targets| || !a.env.connectStarted
       else a.env.named && a.env.replySent == 0
  }

  predicate RelayDrops(a: Act)
    requires a.Deliver?
  {
    Over(a) || (Write !in a.flags && !a.env.recv.Data?) || a.env.sent.SendFailed?
  }

  predicate AssociationDrops(a: Act)
    requires a.Deliver?
  {
    || Over(a)
    || if a.kind == UdpSock
       then a.env.recv.RecvFailed?
         || (a.env.recv.Data? && PassedOn(a.env.recv.buffer, a.env) && a.env.udp == 0)
       else !a.env.recv.Data? || a.env.udp == 0
  }

  ghost predicate EndsDropped(p: Params, v: View, a: Act) {
    a.Deliver? &&
    match v.state
    case Accepted => GreetingDrops(p, a)
    case AuthRequested => LoginDrops(p, a)
    case Authenticated => RequestDrops(p, a)
    case ResolvingDomainName => v.log.request.Some? && ResponseDrops(v.log.request.value.block, a)
    case ConnectingRemote => ConnectingDrops(v.log, a)
    case Connected => RelayDrops(a)
    case Associated => AssociationDrops(a)
    case Invalid => false
  }

  // ---------- what else it comes to ----------

  /** The state of a session that goes on. */
  predicate GoesTo(p: Params, v: View, a: Act, to: State)
    requires a.Deliver? && EnvOk(a.env)
  {
    match v.state
    case Accepted => to == if WantedMethod(p) == 0 then Authenticated else AuthRequested
    case AuthRequested => to == Authenticated
    case Authenticated =>
      a.env.recv.Data? &&
      var d := a.env.recv.buffer.block;
      to == if d[3] == 3 then ResolvingDomainName else if d[1] == 1 then ConnectingRemote else Associated
    case ResolvingDomainName =>
      v.log.request.Some? && to == if v.log.request.value.block[1] == 1 then ConnectingRemote else Associated
    case ConnectingRemote => to == if Error in a.flags then ConnectingRemote else Connected
    case _ => to == v.state
  }

  /** What a command comes to: a reply, the address that is tried, and the addresses to try. */
  datatype Attempt = Attempt(reply: Option<Reply>, tried: Option<Address>, targets: Option<seq<Address>>)

  const NOTHING := Attempt(None, None, None)

  function Answer(r: Reply): Attempt { Attempt(Some(r), None, None) }

  function CommandComesTo(command: byte, addresses: seq<Address>, e: Env): Attempt
    requires addresses != []
  {
    if !e.canOpen then NOTHING
    else if command == 1 then
      Attempt(if e.connectStarted then None else Some(GeneralFailure), Some(addresses[0]), Some(addresses))
    else if e.named && e.bound then Answer(Success)
    else NOTHING
  }

  ghost function RequestComesTo(p: Params, d: Block, e: Env): Attempt {
    if d[1] !in {1, 3} then Answer(CommandNotSupported)
    else if d[3] !in {1, 3, 4} then Answer(AddrTypeNotSupported)
    else if d[3] != 3 then CommandComesTo(d[1], [AddressAsked(d)], e)
    else if !p.hasDns || QueryFails(d, e) then Answer(AddrTypeNotSupported)
    else NOTHING
  }

  function ResponseComesTo(d: Block, a: Act): Attempt
    requires a.Deliver?
  {
    if a.kind == ClientSock || Over(a) || !a.env.response.Received? then NOTHING
    else
      match LookUp(a.env.response.octets, PortAsked(d))
      case Found(addresses) => if addresses == [] then NOTHING else CommandComesTo(d[1], addresses, a.env)
      case _ => NOTHING
  }

  function ConnectingComesTo(log: Log, a: Act): Attempt
    requires a.Deliver?
  {
    var i := |log.attempts|;
    if a.kind == ClientSock || Closed in a.flags then NOTHING
    else if Error in a.flags then
      if i >= |log.targets| then Answer(Unreachable)
      else Attempt(if a.env.connectStarted then None else Some(GeneralFailure), Some(log.targets[i]), None)
    else if a.env.named then Answer(Success)
    else NOTHING
  }

  ghost function ComesTo(p: Params, v: View, a: Act): Attempt
    requires a.Deliver?
  {
    match v.state
    case Authenticated =>
      if Over(a) || !a.env.recv.Data? then NOTHING else RequestComesTo(p, a.env.recv.buffer.block, a.env)
    case ResolvingDomainName =>
      if v.log.request.Some? then ResponseComesTo(v.log.request.value.block, a) else NOTHING
    case ConnectingRemote => ConnectingComesTo(v.log, a)
    case _ => NOTHING
  }

  function Listed<T>(x: Option<T>): seq<T> { if x.Some? then [x.value] else [] }

  /** The attempts are those before and what the event comes to. */
  predicate Attempted(was: Log, now: Log, t: Attempt) {
    && now.replies == was.replies + Listed(t.reply) && now.attempts == was.attempts + Listed(t.tried)
    && now.targets == if t.targets.Some? then t.targets.value else was.targets
  }

  // ---------- negotiation ----------

  lemma GreetingOutcome(p: Params, w: World, a: Act)
    requires Inv(p, w) && Enabled(w, a) && a.Deliver? && w.view.state == Accepted
    ensures var r := Next(p, w, a);
      && (r.outcome == Drop <==> GreetingDrops(p, a))
      && (r.outcome == Keep ==> GoesTo(p, w.view, a, r.view.state)) && Attempted(w.view.log, r.view.log, NOTHING)
  {
    hide TakenFrom, Authorised, Resolving, Connecting, Relaying, Associating;
  }

  lemma CredentialsRefused(p: Params, buffer: RecvBuffer)
    requires buffer.Valid()
    ensures LoginRefused(p, buffer) <==>
      Credentials(buffer).None? || !p.Authenticate(Credentials(buffer).value.0, Credentials(buffer).value.1)
  {
  }

  lemma LoginOutcome(p: Params, w: World, a: Act)
    requires Inv(p, w) && Enabled(w, a) && a.Deliver? && w.view.state == AuthRequested
    ensures var r := Next(p, w, a);
      && (r.outcome == Drop <==> LoginDrops(p, a))
      && (r.outcome == Keep ==> GoesTo(p, w.view, a, r.view.state)) && Attempted(w.view.log, r.view.log, NOTHING)
  {
    hide TakenFrom, Authorised, Resolving, Connecting, Relaying, Associating, Credentials, LoginRefused, Greeted;
    if a.env.recv.Data? {
      CredentialsRefused(p, a.env.recv.buffer);
    }
  }

  // ---------- commands ----------

  lemma ConnectOutcome(v: View, addresses: seq<Address>, e: Env)
    requires addresses != []
    ensures var r := ConnectRemote(v, addresses, e);
      && r.state == ConnectingRemote
      && Attempted(v.log, r.log, CommandComesTo(1, addresses, e.(canOpen := true)))
  {
  }

  /** A command with its octet, 1 or 3. */
  lemma CommandOutcome(v: View, d: Block, addresses: seq<Address>, e: Env)
    requires addresses != [] && d[1] in {1, 3} && v.command == CommandOf(d)
    ensures var r := DoCommand(v, addresses, e);
      && (r.outcome == Drop <==> d[1] == 3 && AssociationFails(e))
      && (r.outcome == Keep ==> r.view.state == if d[1] == 1 then ConnectingRemote else Associated)
      && Attempted(v.log, r.view.log, CommandComesTo(d[1], addresses, e))
  {
    hide ConnectRemote;
    var v1 := v.(log := v.log.(commands := v.log.commands + 1));
    ConnectOutcome(v1, addresses, e);
  }

  /** A query for the name in the request. */
  lemma NameOutcome(p: Params, v: View, d: Block, e: Env)
    requires v.dns == []
    ensures var r := ResolveDomainName(p, v, d, e);
      && (r.outcome == Drop <==> !p.hasDns || QueryFails(d, e))
      && (r.outcome == Keep ==> r.view.state == ResolvingDomainName)
      && Attempted(v.log, r.view.log,
                   if !p.hasDns || QueryFails(d, e) then Answer(AddrTypeNotSupported) else NOTHING)
  {
    hide QueryOctets, WhyNot, NameError;
    var name := DomainName(d);
    QueryExact(name);
    WrittenExactly([], name, true);
    NameErrorExact([], name, true);
    NothingListed(v.log);
  }

  lemma NothingListed(log: Log)
    ensures Attempted(log, log, NOTHING)
  {
  }

  lemma SameAddress(d: Block)
    ensures AddressOf(d) == AddressAsked(d)
  {
  }

  /** A request for an address. */
  lemma AddressOutcome(p: Params, v: View, d: Block, e: Env)
    requires v.command == CommandOf(d) && d[1] in {1, 3} && d[3] != 3
    ensures var r := ResolveAddress(p, v, d, e);
      && (r.outcome == Drop <==> RequestRefused(p, d, e))
      && (r.outcome == Keep ==> r.view.state == if d[1] == 1 then ConnectingRemote else Associated)
      && Attempted(v.log, r.view.log, RequestComesTo(p, d, e))
  {
    hide DoCommand, ResolveDomainName, QueryFails, AssociationFails, CommandComesTo, AddressOf, AddressAsked;
    SameAddress(d);
    CommandOutcome(v, d, [AddressOf(d)], e);
  }

  lemma CheckOutcome(p: Params, v: View, buffer: RecvBuffer, e: Env)
    requires v.dns == []
    ensures var r, d := CheckCommand(p, v, buffer, e), buffer.block;
      && (r.outcome == Drop <==> RequestRefused(p, d, e))
      && (r.outcome == Keep ==>
            r.view.state ==
              if d[3] == 3 then ResolvingDomainName else if d[1] == 1 then ConnectingRemote else Associated)
      && Attempted(v.log, r.view.log, RequestComesTo(p, d, e))
  {
    var d := buffer.block;
    var v1 := v.(command := CommandOf(d), log := v.log.(request := Some(buffer)));
    if d[1] in {1, 3} {
      hide ResolveDomainName, DoCommand, QueryFails, AssociationFails, CommandComesTo, AddressAsked;
      if d[3] != 3 {
        AddressOutcome(p, v1, d, e);
      } else {
        NameOutcome(p, v1, d, e);
      }
    }
  }

  lemma RequestOutcome(p: Params, w: World, a: Act)
    requires Inv(p, w) && Enabled(w, a) && a.Deliver? && w.view.state == Authenticated
    ensures var r := Next(p, w, a);
      && (r.outcome == Drop <==> RequestDrops(p, a))
      && (r.outcome == Keep ==> GoesTo(p, w.view, a, r.view.state))
      && Attempted(w.view.log, r.view.log, ComesTo(p, w.view, a))
  {
    hide CheckCommand, Authorised, TakenFrom, RequestRefused, RequestComesTo, Resolving, Connecting, Relaying,
      Associating;
    NothingListed(w.view.log);
    if a.env.recv.Data? {
      CheckOutcome(p, w.view, a.env.recv.buffer, a.env);
    }
  }

  /** The response to the query for the name in the request. */
  lemma ResponseOutcome(p: Params, w: World, a: Act)
    requires Inv(p, w) && Enabled(w, a) && a.Deliver? && w.view.state == ResolvingDomainName
    ensures w.view.log.request.Some?
    ensures var r, d := Next(p, w, a), w.view.log.request.value.block;
      && (r.outcome == Drop <==> ResponseDrops(d, a))
      && (r.outcome == Keep ==> GoesTo(p, w.view, a, r.view.state))
      && Attempted(w.view.log, r.view.log, ResponseComesTo(d, a))
  {
    hide DoCommand, Authorised, Methods, ProcessClient, Attempted, TakenFrom, LookUp, AssociationFails,
      CommandComesTo, Connecting, Relaying, Associating, Negotiating;
    var d := w.view.log.request.value.block;
    NothingListed(w.view.log);
    NotWhileResolving(p, w.view, a);
    if a.kind.DnsSock? && a.env.response.Received? {
      var octets := a.env.response.octets;
      var l := LookUp(octets, w.view.dns[0]);
      if l.Found? {
        var v := w.view.(regs := Remove(w.view.regs, a.kind), log := w.view.log.(response := Some(octets)));
        if l.addresses == [] {
          NothingDone(v, a.env);
        } else {
          CommandOutcome(v, d, l.addresses, a.env);
        }
        SameAttempts(w.view.log, DoCommand(v, l.addresses, a.env).view.log, octets, ResponseComesTo(d, a));
      }
    }
  }

  lemma NotWhileResolving(p: Params, v: View, a: Act)
    requires a.Deliver? && v.state == ResolvingDomainName
    ensures forall buffer: RecvBuffer | buffer.Valid() :: ProcessClient(p, v, buffer, a.env) == Stepped(v, Drop)
  {
  }

  lemma SameAttempts(was: Log, now: Log, octets: seq<byte>, t: Attempt)
    ensures Attempted(was.(response := Some(octets)), now, t) <==> Attempted(was, now, t)
  {
  }

  lemma NothingDone(v: View, e: Env)
    ensures var r := DoCommand(v, [], e); r.outcome == Drop && Attempted(v.log, r.view.log, NOTHING)
  {
  }

  // ---------- connecting ----------

  lemma TryOutcome(p: Params, w: World, e: Env)
    requires Inv(p, w) && w.outcome == Keep && w.view.state == ConnectingRemote
    ensures var r, log := TryConnectNext(w.view, e), w.view.log;
      var i := |log.attempts|;
      && i <= |log.targets| && (r.outcome == Drop <==> i == |log.targets| || !e.connectStarted)
      && (r.outcome == Keep ==> r.view.state == ConnectingRemote)
      && Attempted(log, r.view.log,
           if i >= |log.targets| then Answer(Unreachable)
           else Attempt(if e.connectStarted then None else Some(GeneralFailure), Some(log.targets[i]), None))
  {
    hide Authorised, TakenFrom;
  }

  lemma CouldOutcome(p: Params, w: World, e: Env)
    requires Inv(p, w) && w.outcome == Keep && w.view.state == ConnectingRemote
    ensures var r := CouldConnect(w.view, e);
      && (r.outcome == Drop <==> e.named && e.replySent == 0)
      && (r.outcome == Keep ==> r.view.state == Connected)
      && Attempted(w.view.log, r.view.log, if e.named then Answer(Success) else NOTHING)
  {
    hide Authorised, TakenFrom;
  }

  lemma ConnectingOutcome(p: Params, w: World, a: Act)
    requires Inv(p, w) && Enabled(w, a) && a.Deliver? && w.view.state == ConnectingRemote
    ensures var r := Next(p, w, a);
      && (r.outcome == Drop <==> ConnectingDrops(w.view.log, a))
      && (r.outcome == Keep ==> GoesTo(p, w.view, a, r.view.state))
      && Attempted(w.view.log, r.view.log, ConnectingComesTo(w.view.log, a))
  {
    hide Authorised, TakenFrom, TryConnectNext, CouldConnect, Attempted;
    NothingListed(w.view.log);
    TryOutcome(p, w, a.env);
    CouldOutcome(p, w, a.env);
    assert a.kind in w.polled;
  }

  // ---------- relaying ----------

  lemma SendOutcome(v: View, d: Direction, buffer: Option<RecvBuffer>, sent: Sent)
    requires buffer.Some? ==> buffer.value.Valid()
    requires Scheduled(v, d) != [] || buffer.Some?
    ensures var r := SocketSend(v, d, buffer, sent);
      && (r.outcome == Drop <==> sent.SendFailed?) && r.view.state == v.state && Attempted(v.log, r.view.log, NOTHING)
  {
  }

  lemma RelayOutcome(p: Params, w: World, a: Act)
    requires Inv(p, w) && Enabled(w, a) && a.Deliver? && w.view.state == Connected
    ensures var r := Next(p, w, a);
      && (r.outcome == Drop <==> RelayDrops(a)) && r.view.state == Connected
      && Attempted(w.view.log, r.view.log, NOTHING)
  {
    hide Authorised, TakenFrom, SocketSend;
    NothingListed(w.view.log);
    forall v: View, d, buffer: Option<RecvBuffer>, sent
      | (buffer.Some? ==> buffer.value.Valid()) && (Scheduled(v, d) != [] || buffer.Some?)
      ensures var r := SocketSend(v, d, buffer, sent);
        && (r.outcome == Drop <==> sent.SendFailed?) && r.view.state == v.state
        && Attempted(v.log, r.view.log, NOTHING)
    {
      SendOutcome(v, d, buffer, sent);
    }
  }

  lemma PacketOutcome(buffer: RecvBuffer, e: Env)
    requires buffer.Valid()
    ensures ReadPacket(buffer, e.fromClient).Payload? <==> PassedOn(buffer, e)
  {
  }

  lemma AssociationOutcome(p: Params, w: World, a: Act)
    requires Inv(p, w) && Enabled(w, a) && a.Deliver? && w.view.state == Associated
    ensures var r := Next(p, w, a);
      && (r.outcome == Drop <==> AssociationDrops(a)) && (r.outcome == Keep ==> r.view.state == Associated)
      && Attempted(w.view.log, r.view.log, NOTHING)
  {
    hide Authorised, TakenFrom, Negotiating, Resolving, Connecting, Relaying, ReadPacket, PassedOn;
    if a.env.recv.Data? {
      PacketOutcome(a.env.recv.buffer, a.env);
    }
  }

  // ---------- every event ----------

  lemma StepOutcome(p: Params, w: World, a: Act)
    requires Inv(p, w) && Enabled(w, a) && a.Deliver?
    ensures var r := Next(p, w, a);
      && (r.outcome == Drop <==> EndsDropped(p, w.view, a))
      && (r.outcome == Keep ==> GoesTo(p, w.view, a, r.view.state))
      && Attempted(w.view.log, r.view.log, ComesTo(p, w.view, a))
  {
    hide Next, Inv, GreetingDrops, LoginDrops, RequestDrops, ResponseDrops, ConnectingDrops, RelayDrops,
      AssociationDrops, RequestComesTo, ResponseComesTo, ConnectingComesTo, Attempted;
    match w.view.state
    case Accepted => GreetingOutcome(p, w, a);
    case AuthRequested => LoginOutcome(p, w, a);
    case Authenticated => RequestOutcome(p, w, a);
    case ResolvingDomainName => ResponseOutcome(p, w, a);
    case ConnectingRemote => ConnectingOutcome(p, w, a);
    case Connected => RelayOutcome(p, w, a);
    case Associated => AssociationOutcome(p, w, a);
    case Invalid => NotInvalid(p, w);
  }

  /** An event of a run drops the session if and only if its peer has closed or there is an error, or what it
      brings or what a socket answers is not what the state needs. */
  lemma DroppedExactly(p: Params, acts: seq<Act>, a: Act)
    requires Run(p, acts).Some? && Enabled(Run(p, acts).value, a)
    ensures Run(p, acts + [a]) == Some(Next(p, Run(p, acts).value, a))
    ensures Run(p, acts + [a]).value.outcome == Drop <==> EndsDropped(p, Run(p, acts).value.view, a)
  {
    hide Next, Inv, EndsDropped, GoesTo, ComesTo, Attempted;
    RunKeeps(p, acts);
    assert (acts + [a])[..|acts|] == acts;
    if a == Poll {
      PollIsKept(p, Run(p, acts).value);
    } else {
      StepOutcome(p, Run(p, acts).value, a);
    }
  }

  lemma PollIsKept(p: Params, w: World)
    requires Enabled(w, Poll)
    ensures Next(p, w, Poll).outcome == Keep && Next(p, w, Poll).view == w.view && !EndsDropped(p, w.view, Poll)
  {
  }

  /** What an event of a run comes to: the state of a session that goes on, and, however it ends, the reply
      and the connection that are attempted. */
  lemma OutcomeExactly(p: Params, acts: seq<Act>, a: Act)
    requires Run(p, acts).Some? && Enabled(Run(p, acts).value, a) && a.Deliver?
    ensures Run(p, acts + [a]).Some?
    ensures var v, r := Run(p, acts).value.view, Run(p, acts + [a]).value;
      (r.outcome == Keep ==> GoesTo(p, v, a, r.view.state)) && Attempted(v.log, r.view.log, ComesTo(p, v, a))
  {
    hide Next, Inv, EndsDropped, GoesTo, ComesTo, Attempted;
    RunKeeps(p, acts);
    assert (acts + [a])[..|acts|] == acts;
    StepOutcome(p, Run(p, acts).value, a);
  }

  /** While connecting, a failed attempt leads to the next address: the session goes on if that attempt can be
      started, and is dropped after a failure reply if not. Behind the last address it is dropped after the
      reply that the destination is unreachable. */
  lemma NextAddressIsTried(p: Params, acts: seq<Act>, a: Act)
    requires Run(p, acts).Some? && Enabled(Run(p, acts).value, a) && a.Deliver? && a.kind == RemoteSock
    requires Run(p, acts).value.view.state == ConnectingRemote && Error in a.flags && Closed !in a.flags
    ensures Run(p, acts + [a]).Some?
    ensures var was, r := Run(p, acts).value.view.log, Run(p, acts + [a]).value;
      var i := |was.attempts|;
      && i <= |was.targets| && was.attempts == was.targets[..i] && r.view.log.targets == was.targets
      && r.view.log.attempts == was.targets[..if i < |was.targets| then i + 1 else i]
      && (if i == |was.targets| then r.outcome == Drop && r.view.log.replies == was.replies + [Unreachable]
          else if a.env.connectStarted then
            r.outcome == Keep && r.view.state == ConnectingRemote && r.view.log.replies == was.replies
          else r.outcome == Drop && r.view.log.replies == was.replies + [GeneralFailure])
  {
    hide Next, Inv, EndsUndefined, EndsThrowing, ConnectThrows;
    var w := Run(p, acts).value;
    RunKeeps(p, acts);
    OneCommandOneReply(p, acts);
    DroppedExactly(p, acts, a);
    OutcomeExactly(p, acts, a);
    ConnectionEnds(p, w, a);
    assert !ConnectThrows(w.view, a) by {
      NoThrow(w.view, a);
    }
    var log := w.view.log;
    var i := |log.attempts|;
    assert log.attempts == log.targets[..i];
    if i < |log.targets| {
      assert log.targets[..i + 1] == log.targets[..i] + [log.targets[i]];
    }
  }

  lemma NoThrow(v: View, a: Act)
    requires a.Deliver? && Error in a.flags
    ensures !ConnectThrows(v, a)
  {
  }

  // ---------- what is waited for ----------

  /** The sockets of a session that the poller waits for, and what for. */
  predicate WaitsFor(v: View) {
    match v.state
    case ResolvingDomainName => v.regs == map[ClientSock := {Read, Closed}, DnsSock(0) := {Read, Closed}]
    case ConnectingRemote =>
      v.regs == if v.log.replies != [] then map[ClientSock := {Read, Closed}]
                else map[ClientSock := {Read, Closed}, RemoteSock := {Write, Closed}]
    case Connected =>
      || v.regs == map[ClientSock := {Read, Closed}, RemoteSock := {Read, Closed}]
      || (v.clientBuffer != [] && v.regs == map[ClientSock := {Write, Closed}, RemoteSock := {Closed}])
      || (v.remoteBuffer != [] && v.regs == map[ClientSock := {Closed}, RemoteSock := {Write, Closed}])
    case Associated =>
      v.regs == map[ClientSock := {Read, Closed}, UdpSock := {Read, Closed}, RemoteSock := {Read, Closed}]
    case _ => v.regs == map[ClientSock := {Read, Closed}]
  }

  lemma WaitsForExactly(p: Params, acts: seq<Act>)
    requires Run(p, acts).Some? && Run(p, acts).value.outcome == Keep
    ensures WaitsFor(Run(p, acts).value.view)
  {
    hide Run;
    RunKeeps(p, acts);
    WaitsInvariantly(p, Run(p, acts).value);
  }

  lemma WaitsInvariantly(p: Params, w: World)
    requires Inv(p, w) && w.outcome == Keep
    ensures WaitsFor(w.view)
  {
    hide Authorised, TakenFrom;
    match w.view.state
    case ConnectingRemote =>
      if w.view.log.replies == [] {
        assert w.view.regs.Keys == {ClientSock, RemoteSock};
      } else {
        assert w.view.regs.Keys == {ClientSock};
      }
    case _ =>
  }

  // ---------- packets ----------

  /** A packet of at most 10 octets is passed on as it is, and one with an IPv4 or IPv6 header without its first
      10 or 22 octets; all others are dropped, or their length is negative. */
  lemma PacketReadExactly(buffer: RecvBuffer, fromClient: bool)
    requires buffer.Valid()
    ensures var r, n, t := ReadPacket(buffer, fromClient), buffer.size, buffer.block[3];
      var header := if n <= 10 then 0 else if t == 1 then 10 else 22;
      && (r.NegativeLength? <==> fromClient && t == 4 && 10 < n < 22)
      && (r.Payload? <==> n <= 10 || (fromClient && (t == 1 || t == 4) && n > header))
      && (r.Payload? ==> r.inner.size == n - header && r.inner.Received() == buffer.block[header..n])
  {
    var header := if buffer.size <= 10 then 0 else if buffer.block[3] == 1 then 10 else 22;
    if header < buffer.size {
      var inner := Stripped(buffer, header);
      assert inner.Received() == buffer.block[header..buffer.size];
    }
  }
}
