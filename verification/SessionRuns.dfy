/** Runs of a session under every poller, every network and every order of events, and what all of
    them keep. */
module SessionRuns {
  import opened Octets
  import opened DnsSockets
  import opened SessionSpec

  /** The session, and the interests of those sockets whose event of the last poll, if any, is still
      to come. They may be out of date. */
  datatype World = World(view: View, polled: Registrations, outcome: Outcome)

  datatype Act = Poll | Deliver(kind: Kind, flags: Interest, env: Env)

  /** At most one event per socket and poll, with flags that were asked for or cannot be refused. */
  ghost predicate Enabled(w: World, a: Act) {
    && w.outcome == Keep
    && (a.Deliver? ==>
          && a.kind in w.polled && a.flags != {} && a.flags <= w.polled[a.kind] + {Closed, Error}
          && EnvOk(a.env))
  }

  function Next(p: Params, w: World, a: Act): World
    requires Enabled(w, a)
  {
    match a
    case Poll => w.(polled := w.view.regs)
    case Deliver(kind, flags, env) =>
      var r := ProcessEvent(p, w.view, kind, flags, env);
      World(r.view, Remove(w.polled, kind), r.outcome)
  }

  /** Where a list of acts leads, unless one of them is impossible. */
  ghost function Run(p: Params, acts: seq<Act>): Option<World> {
    if acts == [] then Some(World(Initial(), map[], Keep))
    else
      var w := Run(p, acts[..|acts| - 1]);
      var a := acts[|acts| - 1];
      if w.Some? && Enabled(w.value, a) then Some(Next(p, w.value, a)) else None
  }

  // ---------- what holds in every state, also after the last event ----------

  /** The method that the server asks for was found in the buffer of the greeting. */
  predicate Greeted(p: Params, greeting: Option<RecvBuffer>) {
    && greeting.Some? && greeting.value.Valid() && greeting.value.block[0] == 5
    && Code(p.Method()) in Methods(greeting.value.block)
  }

  /** And if that is a password, the right one was read from the buffer of the login. What of these
      buffers the client has sent is another question. */
  predicate Authorised(p: Params, greeting: Option<RecvBuffer>, login: Option<RecvBuffer>) {
    && Greeted(p, greeting)
    && (p.Method() == UserPass ==>
          login.Some? && login.value.Valid() && Credentials(login.value) == Some((p.username, p.password)))
  }

  predicate LetIn(p: Params, v: View) {
    Authorised(p, v.log.greeting, v.log.login)
  }

  /** The addresses are the one in the buffer of the request, or those in the datagram that the DNS socket
      has received. What of the buffer the client has sent, and whether the datagram answers the name in
      it, are other questions. */
  predicate TakenFrom(request: Option<RecvBuffer>, response: Option<seq<byte>>, addresses: seq<Address>) {
    request.Some? && request.value.Valid() &&
    var data := request.value.block;
    && CommandOf(data) == Connect
    && if data[3] == 1 || data[3] == 4 then addresses == [AddressOf(data)]
       else data[3] == 3 && response.Some? && LookUp(response.value, DomainPort(data)) == Found(addresses)
  }

  /** The session has this socket. */
  predicate Owns(v: View, k: Kind) {
    match k
    case ClientSock => true
    case RemoteSock => v.remote.Some?
    case UdpSock => v.udp
    case DnsSock(i) => i < |v.dns|
  }

  predicate Always(p: Params, v: View) {
    && (forall k | k in v.regs :: Owns(v, k))
    && (v.remote.Some? || v.udp || v.dns != [] ==> LetIn(p, v))
    && (v.log.targets != [] ==> TakenFrom(v.log.request, v.log.response, v.log.targets))
    && v.log.commands <= 1 && |v.log.replies| <= 1
    && v.log.attempts <= v.log.targets
    && |v.clientBuffer| <= BUFFER_SIZE && |v.remoteBuffer| <= BUFFER_SIZE
  }

  // ---------- what holds between events, phase by phase ----------

  predicate NothingRelayed(v: View) {
    && v.clientBuffer == [] && v.remoteBuffer == []
    && v.log.fromClient == [] && v.log.toRemote == [] && v.log.fromRemote == [] && v.log.toClient == []
  }

  predicate BeforeCommand(v: View) {
    && v.remote.None? && !v.udp && v.log.commands == 0 && v.log.replies == []
    && v.log.attempts == [] && v.log.targets == [] && NothingRelayed(v)
  }

  const LISTENING: Interest := {Read, Closed}
  const SENDING: Interest := {Write, Closed}
  const WAITING: Interest := {Closed}

  predicate Negotiating(p: Params, w: World) {
    && BeforeCommand(w.view) && w.view.dns == []
    && w.view.regs == map[ClientSock := LISTENING]
    && w.polled.Keys <= {ClientSock} && (ClientSock in w.polled ==> w.polled[ClientSock] == LISTENING)
  }

  predicate Resolving(p: Params, w: World) {
    && BeforeCommand(w.view) && w.view.log.request.Some? && w.view.log.request.value.Valid()
    && AsksForName(w.view, w.view.log.request.value.block)
    && (w.view.command == Connect || w.view.command == UdpAssociate)
    && w.view.regs == map[ClientSock := LISTENING, DnsSock(0) := LISTENING]
    && w.polled.Keys <= {ClientSock, DnsSock(0)} && (ClientSock in w.polled ==> w.polled[ClientSock] == LISTENING)
  }

  predicate AsksForName(v: View, data: Block) {
    data[3] == 3 && v.command == CommandOf(data) && v.dns == [DomainPort(data)]
  }

  /** The first `index + 1` addresses have been tried; the remote socket waits for the last attempt unless
      that failed at once, which is when a reply has been attempted. */
  predicate Connecting(p: Params, w: World) {
    && NothingRelayed(w.view) && w.view.log.commands == 1 && !w.view.udp
    && w.view.remote.Some? && !w.view.remote.value.connected
    && w.view.remote.value.addresses == Some(w.view.log.targets)
    && 0 <= w.view.remote.value.index < |w.view.log.targets|
    && w.view.log.attempts == w.view.log.targets[..w.view.remote.value.index + 1]
    && ClientSock in w.view.regs && w.view.regs[ClientSock] == LISTENING
    && w.view.regs.Keys <= {ClientSock, RemoteSock}
    && (RemoteSock in w.view.regs <==> w.view.log.replies == [])
    && (RemoteSock in w.view.regs ==> w.view.regs[RemoteSock] == SENDING)
    && w.polled.Keys <= w.view.regs.Keys
    && (ClientSock in w.polled ==> w.polled[ClientSock] == LISTENING)
    && (RemoteSock in w.polled ==> w.polled[RemoteSock] == SENDING)
  }

  /** Interests of both ends of a relay: both are read, or one is waited for and the other is not read. */
  predicate RelayInterests(client: Interest, remote: Interest) {
    || (client == LISTENING && remote == LISTENING)
    || (client == SENDING && remote == WAITING)
    || (client == WAITING && remote == SENDING)
  }

  predicate Relaying(p: Params, w: World) {
    && w.view.log.commands == 1 && w.view.log.replies == [Success] && !w.view.udp
    && w.view.remote.Some? && w.view.remote.value.connected && w.view.remote.value.addresses == None
    && w.view.regs.Keys == {ClientSock, RemoteSock}
    && RelayInterests(w.view.regs[ClientSock], w.view.regs[RemoteSock])
    && (w.view.regs[ClientSock] == SENDING ==> w.view.clientBuffer != [])
    && (w.view.regs[RemoteSock] == SENDING ==> w.view.remoteBuffer != [])
    && w.polled.Keys <= {ClientSock, RemoteSock}
    && (ClientSock in w.polled && Write in w.polled[ClientSock] ==> w.view.clientBuffer != [])
    && (RemoteSock in w.polled && Write in w.polled[RemoteSock] ==> w.view.remoteBuffer != [])
    && (ClientSock in w.polled && RemoteSock in w.polled ==>
          RelayInterests(w.polled[ClientSock], w.polled[RemoteSock]))
  }

  predicate Associating(p: Params, w: World) {
    && NothingRelayed(w.view) && w.view.log.commands == 1 && w.view.log.replies == [Success] && w.view.udp
    && w.view.log.targets == [] && w.view.log.attempts == []
    && w.view.remote == Some(RemoteView(None, -1, true))
    && w.view.regs == map[ClientSock := LISTENING, UdpSock := LISTENING, RemoteSock := LISTENING]
    && w.polled.Keys <= {ClientSock, UdpSock, RemoteSock}
    && (forall k | k in w.polled :: w.polled[k] == LISTENING)
  }

  ghost predicate Inv(p: Params, w: World) {
    && Always(p, w.view)
    && (w.outcome == Keep ==>
          match w.view.state
          case Accepted => Negotiating(p, w)
          case AuthRequested =>
            Negotiating(p, w) && Greeted(p, w.view.log.greeting)
          case Authenticated => Negotiating(p, w) && LetIn(p, w.view)
          case ResolvingDomainName => Resolving(p, w) && LetIn(p, w.view)
          case ConnectingRemote => Connecting(p, w) && LetIn(p, w.view)
          case Connected => Relaying(p, w) && LetIn(p, w.view)
          case Associated => Associating(p, w) && LetIn(p, w.view)
          case Invalid => false)
  }

  // ---------- every step keeps it ----------

  lemma PollKeeps(p: Params, w: World)
    requires Inv(p, w) && Enabled(w, Poll)
    ensures Inv(p, Next(p, w, Poll))
  {
  }

  lemma NegotiatingKeeps(p: Params, w: World, a: Act)
    requires Inv(p, w) && Enabled(w, a) && a.Deliver? && (w.view.state == Accepted || w.view.state == AuthRequested)
    ensures Inv(p, Next(p, w, a))
  {
    hide TakenFrom, Resolving, Connecting, Relaying, Associating, Methods, Credentials;
  }

  /** A command can be carried out: the client is authorised, and nothing has been done for it yet. */
  predicate Ready(p: Params, v: View, polled: Registrations) {
    && Always(p, v) && LetIn(p, v) && BeforeCommand(v)
    && v.regs == map[ClientSock := LISTENING] && polled.Keys <= {ClientSock}
    && (ClientSock in polled ==> polled[ClientSock] == LISTENING)
  }

  lemma ConnectKeeps(p: Params, v: View, polled: Registrations, addresses: seq<Address>, e: Env)
    requires Ready(p, v, polled) && addresses != [] && TakenFrom(v.log.request, v.log.response, addresses)
    ensures
      var r := ConnectRemote(v.(log := v.log.(commands := 1)), addresses, e);
      Always(p, r) && LetIn(p, r) && r.state == ConnectingRemote && Connecting(p, World(r, polled, Keep))
  {
    hide Authorised, TakenFrom;
    assert addresses[..1] == [addresses[0]];
  }

  lemma AssociateKeeps(p: Params, v: View, polled: Registrations, e: Env)
    requires Ready(p, v, polled)
    ensures
      var r := Associate(v.(log := v.log.(commands := 1)), e);
      && Always(p, r.view) && r.outcome != Undefined
      && (r.outcome == Threw <==> !e.named)
      && (r.outcome == Keep ==>
            r.view.state == Associated && LetIn(p, r.view) && Associating(p, World(r.view, polled, Keep)))
  {
    hide Authorised, TakenFrom;
  }

  lemma DoCommandKeeps(p: Params, v: View, polled: Registrations, addresses: seq<Address>, e: Env)
    requires Ready(p, v, polled) && (v.command == Connect || v.command == UdpAssociate)
    requires v.command == Connect ==> TakenFrom(v.log.request, v.log.response, addresses)
    ensures var r := DoCommand(v, addresses, e); Inv(p, World(r.view, polled, r.outcome))
  {
    hide ConnectRemote, Associate, Authorised, TakenFrom;
    if addresses != [] && v.command == Connect {
      ConnectKeeps(p, v, polled, addresses, e);
    }
    AssociateKeeps(p, v, polled, e);
  }

  lemma CommandKeeps(p: Params, w: World, a: Act)
    requires Inv(p, w) && Enabled(w, a) && a.Deliver? && w.view.state == Authenticated
    ensures Inv(p, Next(p, w, a))
  {
    hide DoCommand, LookUp, QueryOctets, Authorised, AddressOf, DomainPort, DomainName;
    if a.env.recv.Data? && !(Closed in a.flags || Error in a.flags) {
      var buffer := a.env.recv.buffer;
      var v := w.view.(command := CommandOf(buffer.block), log := w.view.log.(request := Some(buffer)));
      if (v.command == Connect || v.command == UdpAssociate) && (buffer.block[3] == 1 || buffer.block[3] == 4) {
        DoCommandKeeps(p, v, Remove(w.polled, a.kind), [AddressOf(buffer.block)], a.env);
      }
    }
  }

  lemma ResolvingKeeps(p: Params, w: World, a: Act)
    requires Inv(p, w) && Enabled(w, a) && a.Deliver? && w.view.state == ResolvingDomainName
    ensures Inv(p, Next(p, w, a))
  {
    hide DoCommand, LookUp, Authorised, DomainPort;
    if a.kind == DnsSock(0) && a.env.response.Received? {
      var octets := a.env.response.octets;
      var found := LookUp(octets, w.view.dns[0]);
      if found.Found? {
        var log := w.view.log.(response := Some(octets));
        var v := w.view.(regs := Remove(w.view.regs, a.kind), log := log);
        DoCommandKeeps(p, v, Remove(w.polled, a.kind), found.addresses, a.env);
      }
    }
  }

  lemma TryNextKeeps(p: Params, w: World, e: Env)
    requires Always(p, w.view) && LetIn(p, w.view) && w.view.state == ConnectingRemote && Connecting(p, w)
    requires RemoteSock in w.polled
    ensures var r := TryConnectNext(w.view, e);
      && Always(p, r.view) && (r.outcome == Keep || r.outcome == Drop)
      && (r.outcome == Keep ==>
            && r.view.state == ConnectingRemote && LetIn(p, r.view)
            && Connecting(p, World(r.view, Remove(w.polled, RemoteSock), Keep)))
  {
    hide Authorised, TakenFrom;
    var i := w.view.remote.value.index + 1;
    if i < |w.view.log.targets| {
      assert w.view.log.targets[..i] + [w.view.log.targets[i]] == w.view.log.targets[..i + 1];
    }
  }

  lemma CouldConnectKeeps(p: Params, w: World, e: Env)
    requires Always(p, w.view) && LetIn(p, w.view) && w.view.state == ConnectingRemote && Connecting(p, w)
    requires RemoteSock in w.polled
    ensures var r := CouldConnect(w.view, e); Inv(p, World(r.view, Remove(w.polled, RemoteSock), r.outcome))
    ensures CouldConnect(w.view, e).outcome != Undefined
  {
    hide Authorised, TakenFrom;
  }

  lemma ConnectingKeeps(p: Params, w: World, a: Act)
    requires Inv(p, w) && Enabled(w, a) && a.Deliver? && w.view.state == ConnectingRemote
    ensures Inv(p, Next(p, w, a))
  {
    hide TryConnectNext, CouldConnect, Authorised, TakenFrom, SocketSend;
    if a.kind == RemoteSock {
      assert a.kind in w.polled;
      TryNextKeeps(p, w, a.env);
      CouldConnectKeeps(p, w, a.env);
    }
  }

  ghost predicate Relay(p: Params, w: World) {
    Always(p, w.view) && LetIn(p, w.view) && w.view.state == Connected && Relaying(p, w)
  }

  /** Both ends of a relay are registered, so both interests change. */
  lemma ListenBoth(v: View, d: Direction, target: Interest, origin: Interest)
    requires v.regs.Keys == {ClientSock, RemoteSock}
    ensures var v' := Listen(v, d, target, origin);
      && v' == v.(regs := v'.regs) && v'.regs.Keys == {ClientSock, RemoteSock}
      && v'.regs[Target(d)] == target && v'.regs[Origin(d)] == origin
  {
  }

  /** Scheduled octets go on when their socket can be written again. */
  lemma FlushKeeps(p: Params, w: World, d: Direction, sent: Sent)
    requires Relay(p, w) && Target(d) in w.polled && Write in w.polled[Target(d)]
    ensures var r := SocketSend(w.view, d, None, sent); Inv(p, World(r.view, Remove(w.polled, Target(d)), r.outcome))
  {
    hide Authorised, TakenFrom, Listen;
    forall v: View, target, origin | v.regs.Keys == {ClientSock, RemoteSock}
      ensures var v' := Listen(v, d, target, origin);
        && v' == v.(regs := v'.regs) && v'.regs.Keys == {ClientSock, RemoteSock}
        && v'.regs[Target(d)] == target && v'.regs[Origin(d)] == origin
    {
      ListenBoth(v, d, target, origin);
    }
  }

  /** Octets that have just been read go on when none are scheduled. */
  lemma ForwardKeeps(p: Params, w: World, d: Direction, buffer: RecvBuffer, sent: Sent)
    requires Relay(p, w) && Origin(d) in w.polled && buffer.Valid() && Scheduled(w.view, d) == []
    ensures
      var r := SocketSend(w.view, d, Some(buffer), sent);
      Inv(p, World(r.view, Remove(w.polled, Origin(d)), r.outcome))
  {
    hide Authorised, TakenFrom, Listen;
    forall v: View, target, origin | v.regs.Keys == {ClientSock, RemoteSock}
      ensures var v' := Listen(v, d, target, origin);
        && v' == v.(regs := v'.regs) && v'.regs.Keys == {ClientSock, RemoteSock}
        && v'.regs[Target(d)] == target && v'.regs[Origin(d)] == origin
    {
      ListenBoth(v, d, target, origin);
    }
  }

  /** Octets are read although others are still scheduled for the same direction. */
  lemma OverrunKeeps(p: Params, w: World, d: Direction, buffer: RecvBuffer, sent: Sent)
    requires Relay(p, w) && Origin(d) in w.polled && buffer.Valid() && Scheduled(w.view, d) != []
    requires Target(d) in w.polled ==> Write !in w.polled[Target(d)]
    ensures
      var r := SocketSend(w.view, d, Some(buffer), sent);
      Inv(p, World(r.view, Remove(w.polled, Origin(d)), r.outcome))
  {
    hide SocketSend, Authorised, TakenFrom;
    match d
    case ToClient => OverrunToClient(p, w, buffer, sent);
    case ToRemote => OverrunToRemote(p, w, buffer, sent);
  }

  lemma OverrunToClient(p: Params, w: World, buffer: RecvBuffer, sent: Sent)
    requires Relay(p, w) && RemoteSock in w.polled && buffer.Valid() && w.view.clientBuffer != []
    requires ClientSock in w.polled ==> Write !in w.polled[ClientSock]
    ensures
      var r := SocketSend(w.view, ToClient, Some(buffer), sent);
      Inv(p, World(r.view, Remove(w.polled, RemoteSock), r.outcome))
  {
    hide Authorised, TakenFrom;
  }

  lemma OverrunToRemote(p: Params, w: World, buffer: RecvBuffer, sent: Sent)
    requires Relay(p, w) && ClientSock in w.polled && buffer.Valid() && w.view.remoteBuffer != []
    requires RemoteSock in w.polled ==> Write !in w.polled[RemoteSock]
    ensures
      var r := SocketSend(w.view, ToRemote, Some(buffer), sent);
      Inv(p, World(r.view, Remove(w.polled, ClientSock), r.outcome))
  {
    hide Authorised, TakenFrom;
  }

  lemma RelayingKeeps(p: Params, w: World, a: Act)
    requires Inv(p, w) && Enabled(w, a) && a.Deliver? && w.view.state == Connected
    ensures Inv(p, Next(p, w, a))
  {
    hide SocketSend, Authorised, TakenFrom;
    var log := w.view.log;
    if Closed !in a.flags && Error !in a.flags {
      if Write in a.flags {
        FlushKeeps(p, w, if a.kind == ClientSock then ToClient else ToRemote, a.env.sent);
      } else if a.env.recv.Data? {
        var buffer, d := a.env.recv.buffer, if a.kind == ClientSock then ToRemote else ToClient;
        var data := buffer.Received();
        var v := w.view.(log := if a.kind == ClientSock then log.(fromClient := log.fromClient + data)
                                else log.(fromRemote := log.fromRemote + data));
        if Scheduled(v, d) == [] {
          ForwardKeeps(p, w.(view := v), d, buffer, a.env.sent);
        } else {
          OverrunKeeps(p, w.(view := v), d, buffer, a.env.sent);
        }
      }
    }
  }

  lemma AssociatedKeeps(p: Params, w: World, a: Act)
    requires Inv(p, w) && Enabled(w, a) && a.Deliver? && w.view.state == Associated
    ensures Inv(p, Next(p, w, a))
  {
    hide Authorised, TakenFrom;
  }

  lemma StepKeeps(p: Params, w: World, a: Act)
    requires Inv(p, w) && Enabled(w, a)
    ensures Inv(p, Next(p, w, a))
  {
    hide Next, Negotiating, Resolving, Connecting, Relaying, Associating, Authorised, Greeted, Always;
    if a == Poll {
      PollKeeps(p, w);
    } else {
      match w.view.state
      case Accepted => NegotiatingKeeps(p, w, a);
      case AuthRequested => NegotiatingKeeps(p, w, a);
      case Authenticated => CommandKeeps(p, w, a);
      case ResolvingDomainName => ResolvingKeeps(p, w, a);
      case ConnectingRemote => ConnectingKeeps(p, w, a);
      case Connected => RelayingKeeps(p, w, a);
      case Associated => AssociatedKeeps(p, w, a);
      case Invalid =>
    }
  }

  /** Every run, whatever the poller reports and the network answers. */
  lemma {:induction false} RunKeeps(p: Params, acts: seq<Act>)
    requires Run(p, acts).Some?
    ensures Inv(p, Run(p, acts).value)
    decreases |acts|
  {
    hide Next, Negotiating, Resolving, Connecting, Relaying, Associating, Authorised;
    if acts == [] {
      InitialInv(p);
    } else {
      var before := acts[..|acts| - 1];
      RunKeeps(p, before);
      StepKeeps(p, Run(p, before).value, acts[|acts| - 1]);
    }
  }

  lemma InitialInv(p: Params)
    ensures Inv(p, World(Initial(), map[], Keep))
  {
  }
}
