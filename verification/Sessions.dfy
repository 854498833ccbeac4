/** The session object and its remote socket, event by event. */
module Sessions {
  import opened Octets
  import opened DnsSockets
  import opened SessionSpec
  import SessionRuns
  import opened MemoryBuffers
  import opened Pollers

  /** What the poller hands back with an event: the server, or a socket of a session. */
  datatype Pointer = TheServer | SocketOf(session: Session, kind: Kind)

  class RemoteSocket {
    const session: Session
    var addresses: Option<seq<Address>>
    var connectingIdx: int  // -1 before the first attempt
    var connected: bool

    constructor (session: Session, addresses: Option<seq<Address>>)
      ensures this.session == session && Value() == RemoteView(addresses, -1, addresses.None?)
    {
      this.session, this.addresses := session, addresses;
      connectingIdx, connected := -1, addresses.None?;
    }

    function Value(): RemoteView
      reads this
    {
      RemoteView(addresses, connectingIdx, connected)
    }
  }

  function Ports(sockets: seq<DnsSocket>): (ports: seq<nat>)
    ensures |ports| == |sockets| && forall i | 0 <= i < |sockets| :: ports[i] == sockets[i].port
  {
    seq(|sockets|, i requires 0 <= i < |sockets| => sockets[i].port)
  }

  class Session {
    const params: Params
    const poller: Poller<Pointer>
    const clientBuffer: MemoryBuffer
    const remoteBuffer: MemoryBuffer
    var remoteSocket: RemoteSocket?
    var hasUdpSocket: bool
    var dnsSockets: seq<DnsSocket>
    var closed: set<Kind>  // the sockets that are closed
    var state: State
    var command: Command
    ghost var regs: Registrations
    ghost var log: Log

    constructor (params: Params, poller: Poller<Pointer>)
      ensures this.params == params && this.poller == poller && fresh(Footprint()) && Valid()
      ensures Value() == Initial().(state := Invalid, regs := map[])
    {
      this.params, this.poller := params, poller;
      clientBuffer := new MemoryBuffer();
      remoteBuffer := new MemoryBuffer();
      remoteSocket, hasUdpSocket, dnsSockets, closed := null, false, [], {};
      state, command := Invalid, Unknown;
      regs, log := map[], Initial().log;
    }

    /** The client's socket is registered before its peer is asked for, which may fail. */
    method Initialize(named: bool) returns (outcome: Outcome)
      requires Valid() && Value() == Initial().(state := Invalid, regs := map[])
      modifies this, poller`mRegistered
      ensures Valid() && Footprint() == old(Footprint()) && OthersKept()
      ensures outcome == if named then Keep else Threw
      ensures Value() == Initial().(state := if named then Accepted else Invalid)
    {
      SetEvent(ClientSock, {Read, Closed}, false);
      if !named {
        return Threw;
      }
      state := Accepted;
      return Keep;
    }

    ghost function Footprint(): (objects: set<object>)
      reads `remoteSocket, clientBuffer, remoteBuffer
      ensures this in objects
    {
      {this} + clientBuffer.Repr() + remoteBuffer.Repr() + (if remoteSocket == null then {} else {remoteSocket})
    }

    /** The poller holds for this session's sockets what `regs` says. */
    ghost predicate Coupled()
      reads `regs, poller`mRegistered
    {
      forall k: Kind ::
        && (SocketOf(this, k) in poller.mRegistered <==> k in regs)
        && (k in regs ==> poller.mRegistered[SocketOf(this, k)] == regs[k])
    }

    ghost predicate Valid()
      reads this, poller`mRegistered, clientBuffer, remoteBuffer, Footprint()
    {
      && clientBuffer.Valid() && remoteBuffer.Valid() && clientBuffer.Repr() !! remoteBuffer.Repr()
      && (clientBuffer.mPtr != null ==> clientBuffer.Capacity() == BUFFER_SIZE)
      && (remoteBuffer.mPtr != null ==> remoteBuffer.Capacity() == BUFFER_SIZE)
      && (remoteSocket != null ==> remoteSocket.session == this)
      && Coupled()
    }

    ghost function Value(): View
      reads this, clientBuffer, remoteBuffer, Footprint()
    {
      View(state, command, if remoteSocket == null then None else Some(remoteSocket.Value()),
                hasUdpSocket, Ports(dnsSockets), clientBuffer.Contents(), remoteBuffer.Contents(), regs, log)
    }

    /** The call did what `r` says. After undefined behaviour nothing is known of the session. */
    ghost predicate Did(r: Stepped, outcome: Outcome)
      reads this, clientBuffer, remoteBuffer, Footprint()
    {
      outcome == r.outcome && (outcome != Undefined ==> Value() == r.view)
    }

    /** Registrations of other pointers are as they were. */
    twostate predicate OthersKept()
      reads poller`mRegistered
    {
      && (forall ptr | ptr in old(poller.mRegistered) && !(ptr.SocketOf? && ptr.session == this) ::
            ptr in poller.mRegistered && poller.mRegistered[ptr] == old(poller.mRegistered)[ptr])
      && (forall ptr | ptr in poller.mRegistered && !(ptr.SocketOf? && ptr.session == this) ::
            ptr in old(poller.mRegistered))
    }

    method SetEvent(k: Kind, flags: Interest, isMod: bool)
      requires Coupled()
      modifies poller`mRegistered, this`regs
      ensures Coupled() && OthersKept()
      ensures regs == if isMod then Modify(old(regs), k, flags) else Add(old(regs), k, flags)
    {
      var _ := poller.SetEvent(SocketOf(this, k), flags, isMod);
      regs := if isMod then Modify(regs, k, flags) else Add(regs, k, flags);
    }

    method RemoveEvent(k: Kind)
      requires Coupled()
      modifies poller`mRegistered, this`regs
      ensures Coupled() && OthersKept() && regs == Remove(old(regs), k)
    {
      var _ := poller.RemoveEvent(SocketOf(this, k));
      regs := Remove(regs, k);
    }

    // ---------- relaying ----------

    function ScheduledBuffer(d: Direction): MemoryBuffer {
      match d case ToClient => clientBuffer case ToRemote => remoteBuffer
    }

    /** Keeps octets for the next time the socket can be written. */
    method ScheduleOctets(d: Direction, octets: seq<byte>)
      requires Valid() && |octets| <= BUFFER_SIZE
      modifies ScheduledBuffer(d).Repr()
      ensures Valid() && fresh(Footprint() - old(Footprint())) && Value() == Schedule(old(Value()), d, octets)
    {
      var scheduled := ScheduledBuffer(d);
      if scheduled.mPtr == null {
        scheduled.Allocate(BUFFER_SIZE);
      }
      var _ := scheduled.CopyFrom(octets);
    }

    method ClearScheduled(d: Direction)
      requires Valid()
      modifies ScheduledBuffer(d)
      ensures Valid() && Footprint() == old(Footprint()) && Value() == Schedule(old(Value()), d, [])
    {
      ScheduledBuffer(d).SetSize(0);
    }

    method ListenTo(d: Direction, target: Interest, origin: Interest)
      requires Valid()
      modifies this`regs, poller`mRegistered
      ensures Valid() && Footprint() == old(Footprint()) && OthersKept()
      ensures Value() == Listen(old(Value()), d, target, origin)
    {
      SetEvent(Target(d), target, true);
      SetEvent(Origin(d), origin, true);
    }

    /** Schedules what was left over, and waits for the socket if it did not already. */
    method Block(d: Direction, octets: seq<byte>, isScheduled: bool)
      requires Valid() && |octets| <= BUFFER_SIZE
      modifies ScheduledBuffer(d).Repr(), this`regs, poller`mRegistered
      ensures Valid() && fresh(Footprint() - old(Footprint())) && OthersKept()
      ensures var v := Schedule(old(Value()), d, octets);
        Value() == if isScheduled then v else Listen(v, d, {Write, Closed}, {Closed})
    {
      hide Listen, Schedule;
      ScheduleOctets(d, octets);
      if !isScheduled {
        ListenTo(d, {Write, Closed}, {Closed});
      }
    }

    /** All scheduled octets are gone. */
    method Unblock(d: Direction)
      requires Valid()
      modifies ScheduledBuffer(d), this`regs, poller`mRegistered
      ensures Valid() && Footprint() == old(Footprint()) && OthersKept()
      ensures Value() == Listen(Schedule(old(Value()), d, []), d, {Read, Closed}, {Read, Closed})
    {
      hide Listen, Schedule;
      ClearScheduled(d);
      ListenTo(d, {Read, Closed}, {Read, Closed});
    }

    ghost method NoteReceived(d: Direction, buffer: RecvBuffer)
      requires Valid() && buffer.Valid()
      modifies this`log
      ensures Valid() && Footprint() == old(Footprint())
      ensures var v, data := old(Value()), buffer.Received();
        Value() == v.(log := if d == ToRemote then v.log.(fromClient := v.log.fromClient + data)
                             else v.log.(fromRemote := v.log.fromRemote + data))
    {
      match d
      case ToClient => log := log.(fromRemote := log.fromRemote + buffer.Received());
      case ToRemote => log := log.(fromClient := log.fromClient + buffer.Received());
    }

    ghost method NoteSent(d: Direction, octets: seq<byte>)
      requires Valid()
      modifies this`log
      ensures Valid() && Footprint() == old(Footprint()) && Value() == SentOn(old(Value()), d, octets)
    {
      match d
      case ToClient => log := log.(toClient := log.toClient + octets);
      case ToRemote => log := log.(toRemote := log.toRemote + octets);
    }

    method SessionSocketSend(d: Direction, buffer: Option<RecvBuffer>, sent: Sent) returns (outcome: Outcome)
      requires Valid() && (buffer.Some? ==> buffer.value.Valid())
      modifies Footprint(), poller`mRegistered
      ensures Valid() && fresh(Footprint() - old(Footprint())) && OthersKept()
      ensures Did(SocketSend(old(Value()), d, buffer, sent), outcome)
    {
      hide SocketSend, Coupled;
      var isScheduled, sendBuffer := ToSend(d, buffer);
      if !isScheduled && buffer.None? {
        NothingToSend(Value(), d, sent);
        return Undefined;  // there is nothing to dereference
      }
      outcome := Send(d, buffer, isScheduled, sendBuffer, sent);
    }

    lemma NothingToSend(v: View, d: Direction, sent: Sent)
      requires Scheduled(v, d) == []
      ensures SocketSend(v, d, None, sent).outcome == Undefined
    {
    }

    /** Scheduled octets come first. */
    method ToSend(d: Direction, buffer: Option<RecvBuffer>) returns (isScheduled: bool, sendBuffer: seq<byte>)
      requires Valid() && (buffer.Some? ==> buffer.value.Valid())
      ensures isScheduled <==> Scheduled(Value(), d) != []
      ensures sendBuffer ==
        if isScheduled then Scheduled(Value(), d) else if buffer.Some? then buffer.value.Received() else []
    {
      hide Coupled;
      var scheduled := ScheduledBuffer(d);
      isScheduled := scheduled.mSize > 0;
      if isScheduled {
        sendBuffer := scheduled.mPtr[..scheduled.mSize];
      } else {
        sendBuffer := if buffer.Some? then buffer.value.Received() else [];
      }
    }

    method Send(d: Direction, buffer: Option<RecvBuffer>, isScheduled: bool, sendBuffer: seq<byte>, sent: Sent)
      returns (outcome: Outcome)
      requires Valid() && (buffer.Some? ==> buffer.value.Valid()) && (isScheduled || buffer.Some?)
      requires isScheduled <==> Scheduled(Value(), d) != []
      requires sendBuffer == if isScheduled then Scheduled(Value(), d) else buffer.value.Received()
      modifies Footprint(), poller`mRegistered
      ensures Valid() && fresh(Footprint() - old(Footprint())) && OthersKept()
      ensures Did(SocketSend(old(Value()), d, buffer, sent), outcome)
    {
      hide Listen, Schedule, SentOn, Valid, Value;
      AtMostBufferSize(d);
      if sent == SendFailed {
        return Drop;
      }
      var sentCount := if sent == WouldBlock then 0 else if sent.count > |sendBuffer| then |sendBuffer| else sent.count;
      if sent.Wrote? {
        NoteSent(d, sendBuffer[..sentCount]);
      }
      if sentCount != |sendBuffer| {
        if !isScheduled || sent.Wrote? {
          if buffer.None? {
            return Undefined;  // the octets are taken from the null pointer
          }
          Block(d, buffer.value.block[sentCount..|sendBuffer|], isScheduled);
        }
      } else if isScheduled {
        Unblock(d);
      }
      return Keep;
    }

    lemma AtMostBufferSize(d: Direction)
      requires Valid()
      ensures |Scheduled(Value(), d)| <= BUFFER_SIZE
    {
      hide Coupled;
    }

    // ---------- connecting ----------

    /** `RemoteSocket::try_connect_next`. */
    method TryConnectNext(e: Env) returns (outcome: Outcome)
      requires Valid() && remoteSocket != null
      modifies Footprint(), poller`mRegistered
      ensures Valid() && Footprint() == old(Footprint()) && OthersKept()
      ensures Did(SessionSpec.TryConnectNext(old(Value()), e), outcome)
    {
      hide SessionSpec.ReplyRemoteConnection, Coupled;
      remoteSocket.connectingIdx := remoteSocket.connectingIdx + 1;
      var i := remoteSocket.connectingIdx;
      if remoteSocket.addresses.None? {
        return Undefined;  // the list is gone
      }
      var addresses := remoteSocket.addresses.value;
      if 0 <= i <= |addresses| {
        if addresses == [] {
          return Threw;  // `at` on an empty list
        }
        if i == |addresses| {
          outcome := ReplyRemoteConnection(Unreachable, e);
          return;
        }
        log := log.(attempts := log.attempts + [addresses[i]]);
        if !e.connectStarted {
          outcome := ReplyRemoteConnection(GeneralFailure, e);
          return;
        }
        return Keep;
      }
      return Drop;
    }

    /** `RemoteSocket::could_connect`. */
    method CouldConnect(e: Env) returns (outcome: Outcome)
      requires Valid() && remoteSocket != null
      modifies Footprint(), poller`mRegistered
      ensures Valid() && Footprint() == old(Footprint()) && OthersKept()
      ensures Did(SessionSpec.CouldConnect(old(Value()), e), outcome)
    {
      hide SessionSpec.ReplyRemoteConnection, Coupled;
      remoteSocket.connected := true;
      if remoteSocket.addresses.None? {
        return Undefined;  // the list is gone
      }
      if !(0 <= remoteSocket.connectingIdx < |remoteSocket.addresses.value|) {
        return Threw;  // `at` outside of the list
      }
      remoteSocket.addresses := None;
      if !e.named {
        return Threw;  // `getpeername` has failed
      }
      outcome := ReplyRemoteConnection(Success, e);
    }

    method SendReply(r: Reply, e: Env) returns (ok: bool)
      requires Valid()
      modifies this`log
      ensures Valid() && Footprint() == old(Footprint()) && ok == (e.replySent != 0)
      ensures Value() == Replied(old(Value()), r)
    {
      log := log.(replies := log.replies + [r]);
      return e.replySent != 0;
    }

    method RemoteConnected()
      requires Valid()
      modifies this`regs, this`state, poller`mRegistered
      ensures Valid() && Footprint() == old(Footprint()) && OthersKept()
      ensures Value() == old(Value()).(regs := Modify(old(regs), RemoteSock, {Read, Closed}), state := Connected)
    {
      SetEvent(RemoteSock, {Read, Closed}, true);
      state := Connected;
    }

    method ReplyRemoteConnection(reply: Reply, e: Env) returns (outcome: Outcome)
      requires Valid()
      modifies this, poller`mRegistered
      ensures Valid() && Footprint() == old(Footprint()) && OthersKept()
      ensures Did(SessionSpec.ReplyRemoteConnection(old(Value()), reply, e), outcome)
    {
      hide Modify;
      if state != ConnectingRemote {
        return Drop;
      }
      if reply == Success {
        RemoteConnected();
      }
      var ok := SendReply(reply, e);
      return if ok && reply == Success then Keep else Drop;
    }

    /** A socket enters the poller. */
    method Register(k: Kind, flags: Interest)
      requires Valid()
      modifies this`regs, poller`mRegistered
      ensures Valid() && Footprint() == old(Footprint()) && OthersKept()
      ensures Value() == old(Value()).(regs := Add(old(regs), k, flags))
    {
      SetEvent(k, flags, false);
    }

    /** A socket leaves the poller. */
    method Unregister(k: Kind)
      requires Valid()
      modifies this`regs, poller`mRegistered
      ensures Valid() && Footprint() == old(Footprint()) && OthersKept()
      ensures var v := old(Value()); Value() == v.(regs := Remove(v.regs, k))
    {
      RemoveEvent(k);
    }

    /** `create_remote_socket` and `set_session`. */
    method CreateRemote(addresses: Option<seq<Address>>)
      requires Valid()
      modifies this`remoteSocket
      ensures Valid() && fresh(Footprint() - old(Footprint())) && remoteSocket != null
      ensures Value() == old(Value()).(remote := Some(RemoteView(addresses, -1, addresses.None?)))
    {
      remoteSocket := new RemoteSocket(this, addresses);
    }

    method StartConnecting(addresses: seq<Address>)
      requires Valid()
      modifies this`remoteSocket, this`state, this`log
      ensures Valid() && fresh(Footprint() - old(Footprint())) && remoteSocket != null
      ensures var v := old(Value());
        Value() == v.(remote := Some(RemoteView(Some(addresses), -1, false)), state := ConnectingRemote,
                      log := v.log.(targets := addresses))
    {
      CreateRemote(Some(addresses));
      log := log.(targets := addresses);
      state := ConnectingRemote;
    }

    method ConnectRemote(addresses: seq<Address>, e: Env) returns (ok: bool)
      requires Valid() && addresses != []
      modifies Footprint(), poller`mRegistered
      ensures Valid() && fresh(Footprint() - old(Footprint())) && OthersKept()
      ensures Value() == SessionSpec.ConnectRemote(old(Value()), addresses, e)
    {
      hide SessionSpec.TryConnectNext, Add;
      StartConnecting(addresses);
      var started := TryConnectNext(e);  // start connect attempts
      if started != Keep {
        return false;
      }
      Register(RemoteSock, {Write, Closed});
      return true;
    }

    method Associate(e: Env) returns (outcome: Outcome)
      requires Valid()
      modifies Footprint(), poller`mRegistered
      ensures Valid() && fresh(Footprint() - old(Footprint())) && OthersKept()
      ensures Did(SessionSpec.Associate(old(Value()), e), outcome)
    {
      hide Add;
      if !e.named {
        return Threw;  // `getsockname` has failed
      }
      if !e.bound {
        return Drop;
      }
      var ok := SendReply(Success, e);
      if !ok {
        return Drop;
      }
      OpenAssociation();
      return Keep;
    }

    /** The UDP socket for the client, and the remote socket that has nothing to connect to. */
    method OpenAssociation()
      requires Valid()
      modifies this`hasUdpSocket, this`remoteSocket, this`regs, this`state, poller`mRegistered
      ensures Valid() && fresh(Footprint() - old(Footprint())) && OthersKept()
      ensures
        var regs' := Add(Add(old(regs), UdpSock, {Read, Closed}), RemoteSock, {Read, Closed});
        Value() == old(Value()).(udp := true, remote := Some(RemoteView(None, -1, true)), regs := regs',
                                 state := Associated)
    {
      hide Add;
      AddSockets();
      Register(UdpSock, {Read, Closed});
      Register(RemoteSock, {Read, Closed});
    }

    method AddSockets()
      requires Valid()
      modifies this`hasUdpSocket, this`remoteSocket, this`state
      ensures Valid() && fresh(Footprint() - old(Footprint()))
      ensures Value() == old(Value()).(udp := true, remote := Some(RemoteView(None, -1, true)), state := Associated)
    {
      hasUdpSocket := true;
      CreateRemote(None);
      state := Associated;
    }

    ghost method NoteCommand()
      requires Valid()
      modifies this`log
      ensures Valid() && Footprint() == old(Footprint())
      ensures var v := old(Value()); Value() == v.(log := v.log.(commands := v.log.commands + 1))
    {
      log := log.(commands := log.commands + 1);
    }

    method DoCommand(addresses: seq<Address>, e: Env) returns (outcome: Outcome)
      requires Valid()
      modifies Footprint(), poller`mRegistered
      ensures Valid() && fresh(Footprint() - old(Footprint())) && OthersKept()
      ensures Did(SessionSpec.DoCommand(old(Value()), addresses, e), outcome)
    {
      hide SessionSpec.CarryOut, Valid, Value;
      NoteCommand();
      if |addresses| == 0 {
        return Drop;
      }
      outcome := CarryOut(addresses, e);
    }

    method CarryOut(addresses: seq<Address>, e: Env) returns (outcome: Outcome)
      requires Valid() && addresses != []
      modifies Footprint(), poller`mRegistered
      ensures Valid() && fresh(Footprint() - old(Footprint())) && OthersKept()
      ensures Did(SessionSpec.CarryOut(old(Value()), addresses, e), outcome)
    {
      hide SessionSpec.ConnectRemote, SessionSpec.Associate, Coupled;
      match command {
        case Connect =>
          if !e.canOpen {
            return Threw;
          }
          var _ := ConnectRemote(addresses, e);
        case UdpAssociate =>
          if !e.canOpen {
            return Threw;
          }
          outcome := Associate(e);
          return;
        case _ =>
      }
      return Keep;
    }

    // ---------- negotiation ----------

    method RequestAuth(buffer: RecvBuffer, e: Env) returns (outcome: Outcome)
      requires Valid()
      modifies this`state, this`log
      ensures Valid() && Footprint() == old(Footprint())
      ensures Did(SessionSpec.RequestAuth(params, old(Value()), buffer, e), outcome)
    {
      var data := buffer.block;
      if data[0] != 5 {
        return Drop;  // after telling the client that no method is acceptable
      }
      log := log.(greeting := Some(buffer));
      var authMethod := params.Method();
      var selected := FindMethod(data, Code(authMethod));
      if e.authSent == -1 {
        return Drop;
      }
      if selected != Code(authMethod) {
        return Drop;
      }
      state := if authMethod == NoAuth then Authenticated else AuthRequested;
      return Keep;
    }

    /** Looks for `wanted` among the offered methods. */
    static method FindMethod(data: Block, wanted: byte) returns (selected: byte)
      requires wanted != INVALID_METHOD
      ensures selected == if wanted in Methods(data) then wanted else INVALID_METHOD
    {
      selected := INVALID_METHOD;
      for i := 0 to data[1]
        invariant forall j | 0 <= j < i :: Methods(data)[j] != wanted
      {
        assert Methods(data)[i] == data[i + 2];
        if data[i + 2] == wanted {
          return wanted;
        }
      }
    }

    method HandleAuth(buffer: RecvBuffer) returns (outcome: Outcome)
      requires Valid() && buffer.Valid()
      modifies this`state, this`log
      ensures Valid() && Footprint() == old(Footprint())
      ensures Did(SessionSpec.HandleAuth(params, old(Value()), buffer), outcome)
    {
      hide Minus;
      var data := buffer.block;
      var usernameLen: nat := data[1];
      if usernameLen > Minus(buffer.size, 2) {
        return Drop;
      }
      var passwordLen: nat := data[2 + usernameLen];
      if passwordLen > Minus(buffer.size, usernameLen + 3) {
        return Drop;
      }
      var username, password := data[2..2 + usernameLen], data[3 + usernameLen..3 + usernameLen + passwordLen];
      log := log.(login := Some(buffer));
      if !params.Authenticate(username, password) {
        return Drop;
      }
      state := Authenticated;
      return Keep;
    }

    method CheckCommand(buffer: RecvBuffer, e: Env) returns (outcome: Outcome)
      requires Valid()
      modifies Footprint(), poller`mRegistered
      ensures Valid() && fresh(Footprint() - old(Footprint())) && OthersKept()
      ensures Did(SessionSpec.CheckCommand(params, old(Value()), buffer, e), outcome)
    {
      hide SessionSpec.ResolveAddress, CommandOf, Replied;
      TakeRequest(buffer);
      if command != Connect && command != UdpAssociate {
        var _ := SendReply(CommandNotSupported, e);
        return Drop;
      }
      outcome := ResolveAddress(buffer.block, e);
    }

    method TakeRequest(buffer: RecvBuffer)
      requires Valid()
      modifies this`command, this`log
      ensures Valid() && Footprint() == old(Footprint()) && command == CommandOf(buffer.block)
      ensures var v := old(Value());
        Value() == v.(command := CommandOf(buffer.block), log := v.log.(request := Some(buffer)))
    {
      hide CommandOf;
      log := log.(request := Some(buffer));
      command := CommandOf(buffer.block);
    }

    method ResolveAddress(data: Block, e: Env) returns (outcome: Outcome)
      requires Valid()
      modifies Footprint(), poller`mRegistered
      ensures Valid() && fresh(Footprint() - old(Footprint())) && OthersKept()
      ensures Did(SessionSpec.ResolveAddress(params, old(Value()), data, e), outcome)
    {
      hide SessionSpec.DoCommand, SessionSpec.ResolveDomainName, Replied;
      if data[3] == 1 || data[3] == 4 {
        outcome := DoCommand([AddressOf(data)], e);
      } else if data[3] == 3 {
        outcome := ResolveDomainName(data, e);
      } else {
        var _ := SendReply(AddrTypeNotSupported, e);
        return Drop;
      }
    }

    method ResolveDomainName(data: Block, e: Env) returns (outcome: Outcome)
      requires Valid()
      modifies Footprint(), poller`mRegistered
      ensures Valid() && Footprint() == old(Footprint()) && OthersKept()
      ensures Did(SessionSpec.ResolveDomainName(params, old(Value()), data, e), outcome)
    {
      hide Add, QueryOctets, DomainName, DomainPort, Coupled;
      if |dnsSockets| >= MAX_DNS_SOCKETS || !params.hasDns {
        var _ := SendReply(AddrTypeNotSupported, e);
        return Drop;
      }
      if !e.canOpen {
        return Threw;
      }
      var dnsSocket := OpenDnsSocket(DomainName(data), DomainPort(data));
      var query := dnsSocket.Query();
      if query.Throw? {
        return if query.error == ScratchOverrun then Undefined else Threw;
      }
      if e.query > 0 {
        return Keep;
      }
      var _ := SendReply(AddrTypeNotSupported, e);
      return Drop;
    }

    /** The socket joins the session and the poller before the name is sent. */
    method OpenDnsSocket(domainName: seq<byte>, port: nat) returns (dnsSocket: DnsSocket)
      requires Valid()
      modifies this`dnsSockets, this`state, this`regs, poller`mRegistered
      ensures Valid() && Footprint() == old(Footprint()) && OthersKept()
      ensures dnsSocket.domainName == domainName
      ensures
        var regs' := Add(old(regs), DnsSock(|old(dnsSockets)|), {Read, Closed});
        Value() == old(Value()).(dns := old(Value()).dns + [port], regs := regs', state := ResolvingDomainName)
    {
      hide Add;
      dnsSocket := new DnsSocket(domainName, port);
      dnsSockets := dnsSockets + [dnsSocket];
      Register(DnsSock(|dnsSockets| - 1), {Read, Closed});
      state := ResolvingDomainName;
    }

    // ---------- events ----------

    method ProcessClient(buffer: RecvBuffer, e: Env) returns (outcome: Outcome)
      requires Valid() && buffer.Valid()
      modifies Footprint(), poller`mRegistered
      ensures Valid() && fresh(Footprint() - old(Footprint())) && OthersKept()
      ensures Did(SessionSpec.ProcessClient(params, old(Value()), buffer, e), outcome)
    {
      hide SessionSpec.RequestAuth, SessionSpec.HandleAuth, SessionSpec.CheckCommand, SocketSend;
      match state {
        case Accepted => outcome := RequestAuth(buffer, e);
        case AuthRequested => outcome := HandleAuth(buffer);
        case Authenticated => outcome := CheckCommand(buffer, e);
        case Connected =>
          NoteReceived(ToRemote, buffer);
          outcome := SessionSocketSend(ToRemote, Some(buffer), e.sent);
        case Associated => outcome := if e.udp != 0 then Keep else Drop;
        case _ => outcome := Drop;
      }
    }

    method ProcessClientEvent(flags: Interest, e: Env) returns (outcome: Outcome)
      requires Valid() && EnvOk(e)
      modifies Footprint(), poller`mRegistered
      ensures Valid() && fresh(Footprint() - old(Footprint())) && OthersKept()
      ensures Did(SessionSpec.ProcessClientEvent(params, old(Value()), flags, e), outcome)
    {
      hide SessionSpec.ProcessClient, SocketSend;
      if Closed in flags || Flag.Error in flags {
        return Drop;
      }
      if Write in flags {
        outcome := SessionSocketSend(ToClient, None, e.sent);
        return;
      }
      if !e.recv.Data? {
        return Drop;
      }
      outcome := ProcessClient(e.recv.buffer, e);
    }

    method ProcessRemoteEvent(flags: Interest, e: Env) returns (outcome: Outcome)
      requires Valid() && EnvOk(e)
      modifies Footprint(), poller`mRegistered
      ensures Valid() && fresh(Footprint() - old(Footprint())) && OthersKept()
      ensures Did(SessionSpec.ProcessRemoteEvent(old(Value()), flags, e), outcome)
    {
      hide SessionSpec.TryConnectNext, SessionSpec.CouldConnect, SocketSend;
      if Closed in flags {
        return Drop;
      }
      if remoteSocket == null {
        return Undefined;
      }
      if Flag.Error in flags {
        if !remoteSocket.connected {
          outcome := TryConnectNext(e);
        } else {
          outcome := Drop;
        }
        return;
      }
      if Write in flags {
        if !remoteSocket.connected {
          outcome := CouldConnect(e);
        } else {
          outcome := SessionSocketSend(ToRemote, None, e.sent);
        }
        return;
      }
      if (state != Connected && state != Associated) || !e.recv.Data? {
        return Drop;
      }
      outcome := ProcessRemote(e.recv.buffer, e);
    }

    method ProcessRemote(buffer: RecvBuffer, e: Env) returns (outcome: Outcome)
      requires Valid() && buffer.Valid() && (state == Connected || state == Associated)
      modifies Footprint(), poller`mRegistered
      ensures Valid() && fresh(Footprint() - old(Footprint())) && OthersKept()
      ensures
        var v := old(Value());
        if v.state == Connected then
          var v' := v.(log := v.log.(fromRemote := v.log.fromRemote + buffer.Received()));
          Did(SocketSend(v', ToClient, Some(buffer), e.sent), outcome)
        else Did(Stepped(v, Verdict(e.udp != 0)), outcome)
    {
      hide SocketSend;
      if state == Connected {
        NoteReceived(ToClient, buffer);
        outcome := SessionSocketSend(ToClient, Some(buffer), e.sent);
      } else {
        outcome := if e.udp != 0 then Keep else Drop;
      }
    }

    method ProcessUdpEvent(flags: Interest, e: Env) returns (outcome: Outcome)
      requires Valid() && EnvOk(e)
      modifies Footprint(), poller`mRegistered
      ensures Valid() && fresh(Footprint() - old(Footprint())) && OthersKept()
      ensures Did(SessionSpec.ProcessUdpEvent(params, old(Value()), flags, e), outcome)
    {
      hide SessionSpec.ProcessClient;
      if Closed in flags || Flag.Error in flags {
        return Drop;
      }
      match e.recv
      case PeerClosed => outcome := Keep;  // the packet is dropped
      case RecvFailed => outcome := Drop;
      case Data(buffer) =>
        var packet := ReceivePacket(buffer, e.fromClient);
        match packet
        case Dropped => outcome := Keep;
        case NegativeLength => outcome := Undefined;  // a copy of as many octets
        case Payload(inner) => outcome := ProcessClient(inner, e);
    }

    /** `UDPSocket::recv_from`: checks where a packet comes from and takes its header off. */
    static method ReceivePacket(buffer: RecvBuffer, fromClient: bool) returns (packet: Packet)
      requires buffer.Valid()
      ensures packet == ReadPacket(buffer, fromClient)
    {
      if buffer.size <= 10 {
        return Payload(buffer);
      }
      if !fromClient {
        return Dropped;
      }
      var addressType := buffer.block[3];
      if addressType != 1 && addressType != 4 {
        return Dropped;
      }
      var headerSize := if addressType == 1 then 10 else 22;
      var bufferSize := buffer.size - headerSize;
      if bufferSize < 0 {
        return NegativeLength;
      }
      return if bufferSize == 0 then Dropped else Payload(Stripped(buffer, headerSize));
    }

    method ProcessDnsEvent(index: nat, flags: Interest, e: Env) returns (outcome: Outcome)
      requires Valid()
      modifies Footprint(), poller`mRegistered
      ensures Valid() && fresh(Footprint() - old(Footprint())) && OthersKept()
      ensures Did(SessionSpec.ProcessDnsEvent(old(Value()), index, flags, e), outcome)
    {
      hide SessionSpec.TakeAnswers, Remove, LookUp, Coupled;
      if Closed in flags || Flag.Error in flags {
        return Drop;
      }
      if index >= |dnsSockets| {
        return Undefined;  // there is no such socket
      }
      if !e.response.Received? {
        Unregister(DnsSock(index));
        return Drop;
      }
      var found := dnsSockets[index].GetResponse(e.response.octets);
      outcome := TakeAnswers(index, e.response.octets, found, e);
    }

    method TakeAnswers(index: nat, ghost octets: seq<byte>, found: Lookup, e: Env) returns (outcome: Outcome)
      requires Valid()
      modifies Footprint(), poller`mRegistered
      ensures Valid() && fresh(Footprint() - old(Footprint())) && OthersKept()
      ensures Did(SessionSpec.TakeAnswers(old(Value()), index, octets, found, e), outcome)
    {
      hide SessionSpec.DoCommand, Remove, Valid, Value;
      match found
      case Malformed(error) => outcome := if error == PopFromEmpty then Undefined else Threw;
      case NullRData => outcome := Undefined;
      case Found(addresses) =>
        TakeResponse(index, octets);
        outcome := DoCommand(addresses, e);
    }

    /** The socket leaves the poller; what it has received is noted. */
    method TakeResponse(index: nat, ghost octets: seq<byte>)
      requires Valid()
      modifies this`regs, this`log, poller`mRegistered
      ensures Valid() && Footprint() == old(Footprint()) && OthersKept()
      ensures var v := old(Value());
        Value() == v.(regs := Remove(v.regs, DnsSock(index)), log := v.log.(response := Some(octets)))
    {
      hide Remove;
      Unregister(DnsSock(index));
      log := log.(response := Some(octets));
    }

    /** The `process_event` of the socket that the event is for. */
    method ProcessEvent(kind: Kind, flags: Interest, e: Env) returns (outcome: Outcome)
      requires Valid() && EnvOk(e)
      modifies Footprint(), poller`mRegistered
      ensures Valid() && fresh(Footprint() - old(Footprint())) && OthersKept()
      ensures Did(SessionSpec.ProcessEvent(params, old(Value()), kind, flags, e), outcome)
    {
      hide SessionSpec.ProcessClientEvent, SessionSpec.ProcessRemoteEvent, SessionSpec.ProcessUdpEvent,
        SessionSpec.ProcessDnsEvent;
      match kind
      case ClientSock => outcome := ProcessClientEvent(flags, e);
      case RemoteSock => outcome := ProcessRemoteEvent(flags, e);
      case UdpSock => outcome := ProcessUdpEvent(flags, e);
      case DnsSock(index) => outcome := ProcessDnsEvent(index, flags, e);
    }

    /** Takes every socket of the session out of the poller and closes it. */
    method Shutdown()
      requires Valid()
      modifies this`regs, this`closed, poller`mRegistered
      ensures Coupled() && OthersKept() && Footprint() == old(Footprint()) && regs.Keys <= old(regs).Keys
      ensures forall k | k in regs :: !SessionRuns.Owns(old(Value()), k)
      ensures forall k: Kind :: k in closed <==> k in old(closed) || SessionRuns.Owns(old(Value()), k)
    {
      CloseOwn();
      CloseDns();
    }

    method Close(k: Kind)
      requires Coupled()
      modifies this`regs, this`closed, poller`mRegistered
      ensures Coupled() && OthersKept() && regs == Remove(old(regs), k) && closed == old(closed) + {k}
    {
      RemoveEvent(k);
      closed := closed + {k};
    }

    method CloseOwn()
      requires Coupled()
      modifies this`regs, this`closed, poller`mRegistered
      ensures Coupled() && OthersKept() && regs.Keys <= old(regs).Keys
      ensures ClientSock !in regs && (remoteSocket != null ==> RemoteSock !in regs)
      ensures hasUdpSocket ==> UdpSock !in regs
      ensures closed == old(closed) + {ClientSock} + (if remoteSocket != null then {RemoteSock} else {})
                        + (if hasUdpSocket then {UdpSock} else {})
    {
      Close(ClientSock);
      if remoteSocket != null {
        Close(RemoteSock);
      }
      if hasUdpSocket {
        Close(UdpSock);
      }
    }

    method CloseDns()
      requires Coupled()
      modifies this`regs, this`closed, poller`mRegistered
      ensures Coupled() && OthersKept() && regs.Keys <= old(regs).Keys
      ensures forall j: nat | j < |dnsSockets| :: DnsSock(j) !in regs
      ensures forall k: Kind :: k in closed <==> k in old(closed) || (k.DnsSock? && k.index < |dnsSockets|)
    {
      for i := 0 to |dnsSockets|
        invariant Coupled() && OthersKept() && regs.Keys <= old(regs).Keys
        invariant forall j: nat | j < i :: DnsSock(j) !in regs
        invariant forall k: Kind :: k in closed <==> k in old(closed) || (k.DnsSock? && k.index < i)
      {
        Close(DnsSock(i));
      }
    }
  }
}
