/** What a proxy session does with an event, as a function of its state, the event's flags and what
    the sockets answer. */
module SessionSpec {
  import opened Octets
  import opened DnsSockets

  const BUFFER_SIZE := 8192
  const MAX_DNS_SOCKETS := 5
  const MAX_RESPONSE := 512

  // ---------- sockets, events and the poller ----------

  datatype Flag = Read | Write | Closed | Error

  type Interest = set<Flag>

  /** A socket of a session. */
  datatype Kind = ClientSock | RemoteSock | UdpSock | DnsSock(index: nat)

  type Registrations = map<Kind, Interest>

  /** `EPOLL_CTL_ADD` fails for a socket that is registered. */
  function Add(regs: Registrations, k: Kind, i: Interest): Registrations {
    if k in regs then regs else regs[k := i]
  }

  /** `EPOLL_CTL_MOD` fails for a socket that is not registered. */
  function Modify(regs: Registrations, k: Kind, i: Interest): Registrations {
    if k in regs then regs[k := i] else regs
  }

  function Remove(regs: Registrations, k: Kind): Registrations {
    regs - {k}
  }

  // ---------- what the environment answers ----------

  type Block = s: seq<byte> | |s| == BUFFER_SIZE witness seq(BUFFER_SIZE, _ => 0)

  /** The receive buffer: its first `size` octets have been received, the rest is whatever was there. It
      is an array on the stack that is not initialized. */
  datatype RecvBuffer = RecvBuffer(block: Block, size: nat) {
    predicate Valid() { 0 < size <= BUFFER_SIZE }

    function Received(): seq<byte>
      requires size <= BUFFER_SIZE
    {
      block[..size]
    }
  }

  datatype Recv = PeerClosed | RecvFailed | Data(buffer: RecvBuffer)

  /** What a send returns: a count, -1 because it would block, or another error. */
  datatype Sent = Wrote(count: nat) | WouldBlock | SendFailed

  /** What a DNS socket gives: a datagram, from whomever. Nothing compares its sender, its ID or its question
      with what was asked. */
  datatype Response = NoResponse | ResponseFailed | Received(octets: seq<byte>)

  /** One answer for each call into the operating system that an event can lead to. */
  datatype Env = Env(
    recv: Recv,            // recv on the socket of the event
    sent: Sent,            // send of relayed octets
    authSent: int,         // send of a method selection
    replySent: int,        // send of a reply
    canOpen: bool,         // sockets could be opened
    query: int,            // send of the DNS query
    response: Response,    // recvfrom on a DNS socket
    connectStarted: bool,  // connect succeeded or is in progress
    named: bool,           // the address of a connected socket, or of its peer, could be asked for
    bound: bool,           // the UDP socket could be bound, and its address asked for
    fromClient: bool,      // a UDP packet comes from the address of the client
    udp: int)              // sendto on a UDP socket

  predicate EnvOk(e: Env) {
    && (e.recv.Data? ==> e.recv.buffer.Valid())
    && (e.response.Received? ==> 0 < |e.response.octets| <= MAX_RESPONSE)
  }

  // ---------- the session ----------

  datatype AuthMethod = NoAuth | UserPass

  datatype Params = Params(username: seq<byte>, password: seq<byte>, hasDns: bool) {
    function Method(): AuthMethod {
      if username == [] && password == [] then NoAuth else UserPass
    }

    predicate Authenticate(user: seq<byte>, pass: seq<byte>) {
      Method() == NoAuth || (username == user && password == pass)
    }
  }

  const INVALID_METHOD: byte := 0xFF

  function Code(m: AuthMethod): byte {
    match m case NoAuth => 0 case UserPass => 2
  }

  datatype State =
    | Accepted | AuthRequested | Authenticated | ResolvingDomainName | ConnectingRemote | Connected | Associated
    | Invalid

  datatype Reply = Success | GeneralFailure | Unreachable | CommandNotSupported | AddrTypeNotSupported

  datatype Command = Connect | Bind | UdpAssociate | Unknown

  /** `index` is -1 until the first attempt; `addresses` is the null pointer once connected. */
  datatype RemoteView = RemoteView(addresses: Option<seq<Address>>, index: int, connected: bool)

  /** What has happened so far: the buffers that the negotiation was read from, and what came of it. */
  datatype Log = Log(
    greeting: Option<RecvBuffer>,
    login: Option<RecvBuffer>,
    request: Option<RecvBuffer>,
    response: Option<seq<byte>>,                   // the datagram that was taken for one
    commands: nat,                                 // how often a command was carried out
    targets: seq<Address>,                         // the addresses to connect to
    attempts: seq<Address>,                        // those that were tried
    replies: seq<Reply>,
    fromClient: seq<byte>, toRemote: seq<byte>, fromRemote: seq<byte>, toClient: seq<byte>)

  datatype View = View(
    state: State, command: Command, remote: Option<RemoteView>, udp: bool,
    dns: seq<nat>,  // the port of each DNS socket
    clientBuffer: seq<byte>, remoteBuffer: seq<byte>, regs: Registrations, log: Log)

  /** `Threw` is an exception that leaves the handler; `serve` does not catch it. `Undefined` is the use
      of a null pointer, or of memory outside of an object. */
  datatype Outcome = Keep | Drop | Threw | Undefined

  datatype Stepped = Stepped(view: View, outcome: Outcome)

  function Verdict(keep: bool): Outcome { if keep then Keep else Drop }

  function Initial(): View {
    View(Accepted, Unknown, None, false, [], [], [], map[ClientSock := {Read, Closed}],
         Log(None, None, None, None, 0, [], [], [], [], [], [], []))
  }

  // ---------- events ----------

  function ProcessEvent(p: Params, s: View, k: Kind, flags: Interest, e: Env): Stepped
    requires EnvOk(e)
  {
    match k
    case ClientSock => ProcessClientEvent(p, s, flags, e)
    case RemoteSock => ProcessRemoteEvent(s, flags, e)
    case UdpSock => ProcessUdpEvent(p, s, flags, e)
    case DnsSock(i) => ProcessDnsEvent(s, i, flags, e)
  }

  function ProcessClientEvent(p: Params, s: View, flags: Interest, e: Env): Stepped
    requires EnvOk(e)
  {
    if Closed in flags || Error in flags then Stepped(s, Drop)
    else if Write in flags then SocketSend(s, ToClient, None, e.sent)
    else if !e.recv.Data? then Stepped(s, Drop)
    else ProcessClient(p, s, e.recv.buffer, e)
  }

  function ProcessClient(p: Params, s: View, buffer: RecvBuffer, e: Env): Stepped
    requires buffer.Valid()
  {
    match s.state
    case Accepted => RequestAuth(p, s, buffer, e)
    case AuthRequested => HandleAuth(p, s, buffer)
    case Authenticated => CheckCommand(p, s, buffer, e)
    case Connected =>
      SocketSend(s.(log := s.log.(fromClient := s.log.fromClient + buffer.Received())), ToRemote, Some(buffer), e.sent)
    case Associated => Stepped(s, Verdict(e.udp != 0))
    case _ => Stepped(s, Drop)
  }

  function ProcessRemoteEvent(s: View, flags: Interest, e: Env): Stepped
    requires EnvOk(e)
  {
    if Closed in flags then Stepped(s, Drop)
    else if s.remote.None? then Stepped(s, Undefined)
    else if Error in flags then if s.remote.value.connected then Stepped(s, Drop) else TryConnectNext(s, e)
    else if Write in flags then
      if s.remote.value.connected then SocketSend(s, ToRemote, None, e.sent) else CouldConnect(s, e)
    else
      match s.state
      case Connected =>
        if !e.recv.Data? then Stepped(s, Drop)
        else
          var data := e.recv.buffer.Received();
          SocketSend(s.(log := s.log.(fromRemote := s.log.fromRemote + data)), ToClient, Some(e.recv.buffer), e.sent)
      case Associated => Stepped(s, Verdict(e.recv.Data? && e.udp != 0))
      case _ => Stepped(s, Drop)
  }

  function ProcessUdpEvent(p: Params, s: View, flags: Interest, e: Env): Stepped
    requires EnvOk(e)
  {
    if Closed in flags || Error in flags then Stepped(s, Drop)
    else
      match e.recv
      case PeerClosed => Stepped(s, Keep)  // the packet is dropped
      case RecvFailed => Stepped(s, Drop)
      case Data(buffer) =>
        match ReadPacket(buffer, e.fromClient)
        case Dropped => Stepped(s, Keep)
        case Payload(inner) => ProcessClient(p, s, inner, e)
        case NegativeLength => Stepped(s, Undefined)
  }

  /** `UDPSocket::recv_from`: what is left of a packet without its header, or that the length of the rest
      is negative. */
  datatype Packet = Dropped | Payload(inner: RecvBuffer) | NegativeLength

  /** A packet of at most 10 octets is passed on as it is; the size of a longer one is only compared with
      its header after the header has been used. */
  function ReadPacket(buffer: RecvBuffer, fromClient: bool): (r: Packet)
    requires buffer.Valid()
    ensures r.Payload? ==> r.inner.Valid()
  {
    if buffer.size <= 10 then Payload(buffer)
    else if !fromClient then Dropped
    else if buffer.block[3] == 1 then Payload(Stripped(buffer, 10))
    else if buffer.block[3] != 4 || buffer.size == 22 then Dropped
    else if buffer.size < 22 then NegativeLength
    else Payload(Stripped(buffer, 22))
  }

  /** The rest is moved to the front. */
  function Stripped(buffer: RecvBuffer, n: nat): RecvBuffer
    requires n <= buffer.size <= BUFFER_SIZE
  {
    RecvBuffer(buffer.block[n..buffer.size] + buffer.block[buffer.size - n..], buffer.size - n)
  }

  /** The socket leaves the poller after its response has been looked at. */
  function ProcessDnsEvent(s: View, index: nat, flags: Interest, e: Env): Stepped {
    if Closed in flags || Error in flags then Stepped(s, Drop)
    else if index >= |s.dns| then Stepped(s, Undefined)
    else
      var s1 := s.(regs := Remove(s.regs, DnsSock(index)));
      match e.response
      case NoResponse => Stepped(s1, Drop)
      case ResponseFailed => Stepped(s1, Drop)
      case Received(octets) =>
        TakeAnswers(s, index, octets, LookUp(octets, s.dns[index]), e)
  }

  /** What becomes of the response `octets`. */
  function TakeAnswers(s: View, index: nat, octets: seq<byte>, found: Lookup, e: Env): Stepped {
    match found
    case Malformed(error) => Stepped(s, if error == PopFromEmpty then Undefined else Threw)
    case NullRData => Stepped(s, Undefined)
    case Found(addresses) =>
      var regs := Remove(s.regs, DnsSock(index));
      DoCommand(s.(regs := regs, log := s.log.(response := Some(octets))), addresses, e)
  }

  // ---------- negotiation ----------

  /** The methods that the greeting lists; it is read from the block whatever its size. */
  function Methods(data: Block): seq<byte> {
    data[2..2 + data[1] as int]
  }

  function RequestAuth(p: Params, s: View, buffer: RecvBuffer, e: Env): Stepped {
    if buffer.block[0] != 5 then Stepped(s, Drop)
    else
      var s1 := s.(log := s.log.(greeting := Some(buffer)));
      if Code(p.Method()) !in Methods(buffer.block) || e.authSent == -1 then Stepped(s1, Drop)
      else Stepped(s1.(state := if p.Method() == NoAuth then Authenticated else AuthRequested), Keep)
  }

  /** `size_t` subtraction. */
  function Minus(x: nat, y: nat): nat {
    (x - y) % 0x1_0000_0000_0000_0000
  }

  /** User name and password, unless their lengths exceed what was received; both subtractions wrap. */
  function Credentials(buffer: RecvBuffer): Option<(seq<byte>, seq<byte>)>
    requires buffer.Valid()
  {
    var data := buffer.block;
    var user: nat := data[1];
    if user > Minus(buffer.size, 2) then None
    else
      var pass: nat := data[2 + user];
      if pass > Minus(buffer.size, user + 3) then None
      else Some((data[2..2 + user], data[3 + user..3 + user + pass]))
  }

  function HandleAuth(p: Params, s: View, buffer: RecvBuffer): Stepped
    requires buffer.Valid()
  {
    match Credentials(buffer)
    case None => Stepped(s, Drop)
    case Some(c) =>
      var s1 := s.(log := s.log.(login := Some(buffer)));
      if !p.Authenticate(c.0, c.1) then Stepped(s1, Drop) else Stepped(s1.(state := Authenticated), Keep)
  }

  // ---------- commands ----------

  function CommandOf(data: Block): Command {
    if data[1] == 1 then Connect else if data[1] == 2 then Bind else if data[1] == 3 then UdpAssociate else Unknown
  }

  function Replied(s: View, r: Reply): View {
    s.(log := s.log.(replies := s.log.replies + [r]))
  }

  /** The address in a request of type IPv4 or IPv6. */
  function AddressOf(data: Block): Address {
    if data[3] == 1 then Address(true, data[4..8], Port(data, 8)) else Address(false, data[4..20], Port(data, 20))
  }

  /** A port, high octet first. */
  function Port(data: Block, at: nat): nat
    requires at + 2 <= BUFFER_SIZE
  {
    data[at] as int * 0x100 + data[at + 1]
  }

  /** The name in a request of type domain name. */
  function DomainName(data: Block): (name: seq<byte>)
    ensures |name| <= 255
  {
    data[5..5 + data[4] as int]
  }

  function DomainPort(data: Block): nat {
    Port(data, 5 + data[4] as int)
  }

  function CheckCommand(p: Params, s: View, buffer: RecvBuffer, e: Env): Stepped {
    var s1 := s.(command := CommandOf(buffer.block), log := s.log.(request := Some(buffer)));
    if s1.command != Connect && s1.command != UdpAssociate then Stepped(Replied(s1, CommandNotSupported), Drop)
    else ResolveAddress(p, s1, buffer.block, e)
  }

  function ResolveAddress(p: Params, s: View, data: Block, e: Env): Stepped {
    if data[3] == 1 || data[3] == 4 then DoCommand(s, [AddressOf(data)], e)
    else if data[3] == 3 then ResolveDomainName(p, s, data, e)
    else Stepped(Replied(s, AddrTypeNotSupported), Drop)
  }

  /** The socket is registered before the name is looked at. */
  function ResolveDomainName(p: Params, s: View, data: Block, e: Env): Stepped {
    if |s.dns| >= MAX_DNS_SOCKETS || !p.hasDns then Stepped(Replied(s, AddrTypeNotSupported), Drop)
    else if !e.canOpen then Stepped(s, Threw)
    else
      var regs := Add(s.regs, DnsSock(|s.dns|), {Read, Closed});
      var s1 := s.(dns := s.dns + [DomainPort(data)], regs := regs, state := ResolvingDomainName);
      match QueryOctets(DomainName(data))
      case Throw(error) => Stepped(s1, if error == ScratchOverrun then Undefined else Threw)
      case Ok(_) => if e.query > 0 then Stepped(s1, Keep) else Stepped(Replied(s1, AddrTypeNotSupported), Drop)
  }

  function DoCommand(s: View, addresses: seq<Address>, e: Env): Stepped {
    var s1 := s.(log := s.log.(commands := s.log.commands + 1));
    if addresses == [] then Stepped(s1, Drop) else CarryOut(s1, addresses, e)
  }

  /** Opens the sockets and does what the command says. */
  function CarryOut(s: View, addresses: seq<Address>, e: Env): Stepped {
    match s.command
    case Connect =>
      if !e.canOpen then Stepped(s, Threw)
      else Stepped(ConnectRemote(s, addresses, e), Keep)  // whether it failed is ignored
    case UdpAssociate => if !e.canOpen then Stepped(s, Threw) else Associate(s, e)
    case _ => Stepped(s, Keep)
  }

  /** The new remote socket is registered only if the first attempt could be started. */
  function ConnectRemote(s: View, addresses: seq<Address>, e: Env): View {
    var s1 := s.(remote := Some(RemoteView(Some(addresses), -1, false)), state := ConnectingRemote,
                 log := s.log.(targets := addresses));
    var r := TryConnectNext(s1, e);
    if r.outcome == Keep then r.view.(regs := Add(r.view.regs, RemoteSock, {Write, Closed})) else r.view
  }

  function TryConnectNext(s: View, e: Env): (next: Stepped)
    requires s.remote.Some?
    ensures s.remote.value.addresses.Some? ==> next.outcome != Undefined
  {
    var r := s.remote.value;
    var i := r.index + 1;
    var s1 := s.(remote := Some(r.(index := i)));
    if r.addresses.None? then Stepped(s1, Undefined)
    else if i < 0 || i > |r.addresses.value| then Stepped(s1, Drop)
    else if r.addresses.value == [] then Stepped(s1, Threw)  // there is no last address
    else if i == |r.addresses.value| then ReplyRemoteConnection(s1, Unreachable, e)
    else
      var s2 := s1.(log := s1.log.(attempts := s1.log.attempts + [r.addresses.value[i]]));
      if e.connectStarted then Stepped(s2, Keep) else ReplyRemoteConnection(s2, GeneralFailure, e)
  }

  function CouldConnect(s: View, e: Env): Stepped
    requires s.remote.Some?
  {
    var r := s.remote.value;
    if r.addresses.None? then Stepped(s.(remote := Some(r.(connected := true))), Undefined)
    else if !(0 <= r.index < |r.addresses.value|) then Stepped(s.(remote := Some(r.(connected := true))), Threw)
    else
      var s1 := s.(remote := Some(RemoteView(None, r.index, true)));
      if !e.named then Stepped(s1, Threw) else ReplyRemoteConnection(s1, Success, e)
  }

  /** Success makes the session a relay, whether or not the reply can be sent. */
  function ReplyRemoteConnection(s: View, r: Reply, e: Env): (next: Stepped)
    ensures next.outcome == Keep || next.outcome == Drop
  {
    if s.state != ConnectingRemote then Stepped(s, Drop)
    else
      var s1 := if r == Success then s.(regs := Modify(s.regs, RemoteSock, {Read, Closed}), state := Connected) else s;
      Stepped(Replied(s1, r), Verdict(e.replySent != 0 && r == Success))
  }

  function Associate(s: View, e: Env): Stepped {
    if !e.named then Stepped(s, Threw)
    else if !e.bound then Stepped(s, Drop)
    else
      var s1 := Replied(s, Success);
      if e.replySent == 0 then Stepped(s1, Drop)
      else
        var regs := Add(Add(s1.regs, UdpSock, {Read, Closed}), RemoteSock, {Read, Closed});
        Stepped(s1.(udp := true, remote := Some(RemoteView(None, -1, true)), regs := regs, state := Associated), Keep)
  }

  // ---------- relaying ----------

  datatype Direction = ToClient | ToRemote

  function Target(d: Direction): Kind { match d case ToClient => ClientSock case ToRemote => RemoteSock }

  function Origin(d: Direction): Kind { match d case ToClient => RemoteSock case ToRemote => ClientSock }

  function Scheduled(s: View, d: Direction): seq<byte> {
    match d case ToClient => s.clientBuffer case ToRemote => s.remoteBuffer
  }

  function Schedule(s: View, d: Direction, octets: seq<byte>): View {
    match d case ToClient => s.(clientBuffer := octets) case ToRemote => s.(remoteBuffer := octets)
  }

  function Listen(s: View, d: Direction, target: Interest, origin: Interest): View {
    s.(regs := Modify(Modify(s.regs, Target(d), target), Origin(d), origin))
  }

  /** Sends the scheduled octets, or the fresh ones if there are none, and schedules what is left.
      Fresh octets are not looked at while others are scheduled, except where the rest after a partial
      flush is taken from their buffer, or from the null pointer if there is none. */
  function SocketSend(s: View, d: Direction, buffer: Option<RecvBuffer>, sent: Sent): Stepped
    requires buffer.Some? ==> buffer.value.Valid()
  {
    var scheduled := Scheduled(s, d);
    if scheduled == [] && buffer.None? then Stepped(s, Undefined)
    else
      var out := if scheduled != [] then scheduled else buffer.value.Received();
      match sent
      case SendFailed => Stepped(s, Drop)
      case WouldBlock =>
        if scheduled != [] then Stepped(s, Keep)
        else Stepped(Listen(Schedule(s, d, out), d, {Write, Closed}, {Closed}), Keep)
      case Wrote(count) =>
        var n := if count > |out| then |out| else count;
        var s1 := SentOn(s, d, out[..n]);
        if n == |out| then
          if scheduled == [] then Stepped(s1, Keep)
          else Stepped(Listen(Schedule(s1, d, []), d, {Read, Closed}, {Read, Closed}), Keep)
        else if scheduled == [] then
          Stepped(Listen(Schedule(s1, d, out[n..]), d, {Write, Closed}, {Closed}), Keep)
        else if buffer.None? || |out| > BUFFER_SIZE then Stepped(s1, Undefined)
        else Stepped(Schedule(s1, d, buffer.value.block[n..|out|]), Keep)
  }

  function SentOn(s: View, d: Direction, octets: seq<byte>): View {
    match d
    case ToClient => s.(log := s.log.(toClient := s.log.toClient + octets))
    case ToRemote => s.(log := s.log.(toRemote := s.log.toRemote + octets))
  }
}
