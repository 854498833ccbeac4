/** What no run of a session can do: act for a client that was not let in, connect to what was not asked
    for, go back, carry out a command twice, reply twice; and exactly when an event ends in undefined
    behaviour or in an exception. */
module SessionSafety {
  import opened Octets
  import opened Names
  import opened Messages
  import opened DnsSockets
  import opened SessionSpec
  import opened SessionRuns

  // ---------- what the client has sent ----------

  /** The octets received are a greeting that lists the method, as far as they go. */
  predicate Offered(received: seq<byte>, code: byte) {
    && |received| >= 2 && received[0] == 5
    && exists i :: 2 <= i < 2 + received[1] as int && i < |received| && received[i] == code
  }

  /** The octets received begin with this user name and password, each behind its length. */
  predicate SentLogin(received: seq<byte>, user: seq<byte>, pass: seq<byte>) {
    var n, m := |user|, |pass|;
    && |received| >= 3 + n + m && received[1] == n && received[2..2 + n] == user
    && received[2 + n] == m && received[3 + n..3 + n + m] == pass
  }

  /** Where the list of methods in a greeting ends. */
  function ListEnd(data: Block): nat { 2 + data[1] as int }

  /** Where the password of a login begins, behind its length. */
  function PasswordStart(data: Block): nat { 3 + data[1] as int }

  /** Where the search of the greeting ends: at the method, or behind the list. */
  function SearchEnd(data: Block, code: byte, i: nat): (end: nat)
    requires 2 <= i <= ListEnd(data)
    ensures i <= end <= ListEnd(data) && (end < ListEnd(data) ==> data[end] == code)
    ensures forall j | i <= j < end :: data[j] != code
    decreases ListEnd(data) - i
  {
    if i == ListEnd(data) || data[i] == code then i else SearchEnd(data, code, i + 1)
  }

  /** The method that is found was offered if and only if it is found among the octets received; it
      is if all of the list was received. */
  lemma OfferedExactly(greeting: RecvBuffer, code: byte)
    requires greeting.Valid() && greeting.block[0] == 5 && code in Methods(greeting.block)
    ensures Offered(greeting.Received(), code) <==> SearchEnd(greeting.block, code, 2) < greeting.size
    ensures ListEnd(greeting.block) <= greeting.size ==> Offered(greeting.Received(), code)
  {
    var data, end := greeting.block, SearchEnd(greeting.block, code, 2);
    var k :| 0 <= k < data[1] as int && Methods(data)[k] == code;
    assert data[k + 2] == code;
    if end < greeting.size {
      assert greeting.Received()[end] == code;
    }
  }

  /** User name and password that are taken from the block were sent if and only if the octets received
      go beyond the length of the password. */
  lemma LoginSentExactly(login: RecvBuffer)
    requires login.Valid() && Credentials(login).Some?
    ensures var c := Credentials(login).value;
      SentLogin(login.Received(), c.0, c.1) <==> login.size >= PasswordStart(login.block)
  {
    var data, n, r := login.block, login.block[1] as int, login.Received();
    if login.size >= 3 + n {
      var m := data[2 + n] as int;
      assert r[2..2 + n] == data[2..2 + n] && r[3 + n..3 + n + m] == data[3 + n..3 + n + m];
    }
  }

  /** The session has more than its client's socket. */
  predicate ActsForClient(v: View) {
    v.remote.Some? || v.udp || v.dns != []
  }

  /** On every run a remote, UDP or DNS socket exists only if the method of the server was found in the
      buffer of the greeting and, if that is a password, the right user name and password in that of the
      login. The client has offered the method exactly if it was found among the octets received, and has
      sent the user name and password exactly if these go beyond the length of the password. */
  lemma AuthenticationSafety(p: Params, acts: seq<Act>)
    requires Run(p, acts).Some?
    ensures var v := Run(p, acts).value.view;
      ActsForClient(v) ==>
        && Greeted(p, v.log.greeting)
        && (Offered(v.log.greeting.value.Received(), Code(p.Method())) <==>
              SearchEnd(v.log.greeting.value.block, Code(p.Method()), 2) < v.log.greeting.value.size)
        && (p.Method() == UserPass ==>
              && v.log.login.Some? && v.log.login.value.Valid()
              && Credentials(v.log.login.value) == Some((p.username, p.password))
              && (SentLogin(v.log.login.value.Received(), p.username, p.password) <==>
                    v.log.login.value.size >= PasswordStart(v.log.login.value.block)))
  {
    hide SearchEnd, Credentials, Inv, SentLogin, Offered;
    RunKeeps(p, acts);
    var v := Run(p, acts).value.view;
    InvLetsIn(p, Run(p, acts).value);
    if ActsForClient(v) {
      OfferedExactly(v.log.greeting.value, Code(p.Method()));
      if p.Method() == UserPass {
        LoginSentExactly(v.log.login.value);
      }
    }
  }

  lemma InvLetsIn(p: Params, w: World)
    requires Inv(p, w)
    ensures ActsForClient(w.view) ==> LetIn(p, w.view)
  {
  }

  /** If the list of methods was received to its end, the method of the server is in what was received; if
      the login was received beyond the length of the password, so are the user name and password. */
  predicate Entitled(p: Params, greeting: Option<RecvBuffer>, login: Option<RecvBuffer>) {
    && greeting.Some? && greeting.value.Valid()
    && (ListEnd(greeting.value.block) <= greeting.value.size ==>
          Offered(greeting.value.Received(), Code(p.Method())))
    && (p.Method() == UserPass ==>
          && login.Some? && login.value.Valid()
          && (login.value.size >= PasswordStart(login.value.block) ==>
                SentLogin(login.value.Received(), p.username, p.password)))
  }

  /** So nobody is let in by a greeting and a login that were received as far as the server reads them,
      except who has offered the method and sent the user name and password. */
  lemma OnlyTheClient(p: Params, acts: seq<Act>)
    requires Run(p, acts).Some? && ActsForClient(Run(p, acts).value.view)
    ensures var log := Run(p, acts).value.view.log; Entitled(p, log.greeting, log.login)
  {
    hide Run, Offered, SentLogin, Credentials;
    AuthenticationSafety(p, acts);
    OfferedExactly(Run(p, acts).value.view.log.greeting.value, Code(p.Method()));
  }

  /** On every run a command is carried out at most once, at most one reply is attempted, and the
      connection attempts are the resolved addresses in their order, each at most once. */
  lemma OneCommandOneReply(p: Params, acts: seq<Act>)
    requires Run(p, acts).Some?
    ensures var log := Run(p, acts).value.view.log;
      log.commands <= 1 && |log.replies| <= 1 && log.attempts <= log.targets
  {
    RunKeeps(p, acts);
  }

  // ---------- the state only moves forward ----------

  function Rank(s: State): nat {
    match s
    case Accepted => 0
    case AuthRequested => 1
    case Authenticated => 2
    case ResolvingDomainName => 3
    case ConnectingRemote => 4
    case Connected => 5
    case Associated => 5
    case Invalid => 6
  }

  lemma CommandForward(v: View, addresses: seq<Address>, e: Env)
    ensures var to := DoCommand(v, addresses, e).view.state;
      to == v.state || to == ConnectingRemote || to == Associated
  {
  }

  lemma RequestForward(p: Params, v: View, buffer: RecvBuffer, e: Env)
    requires buffer.Valid()
    ensures var to := CheckCommand(p, v, buffer, e).view.state;
      to == v.state || to == ResolvingDomainName || to == ConnectingRemote || to == Associated
  {
    hide DoCommand, QueryOctets, AddressOf, DomainPort;
    var s1 := v.(command := CommandOf(buffer.block), log := v.log.(request := Some(buffer)));
    CommandForward(s1, [AddressOf(buffer.block)], e);
  }

  lemma ResponseForward(v: View, i: nat, flags: Interest, e: Env)
    ensures var to := ProcessDnsEvent(v, i, flags, e).view.state;
      to == v.state || to == ConnectingRemote || to == Associated
  {
    hide DoCommand, LookUp;
    if i < |v.dns| && e.response.Received? {
      var l := LookUp(e.response.octets, v.dns[i]);
      if l.Found? {
        var log := v.log.(response := Some(e.response.octets));
        CommandForward(v.(regs := Remove(v.regs, DnsSock(i)), log := log), l.addresses, e);
      }
    }
  }

  lemma EarlyForward(p: Params, w: World, a: Act)
    requires Inv(p, w) && Enabled(w, a) && a.Deliver? && Rank(w.view.state) <= 3
    ensures var to := Next(p, w, a).view.state; Rank(to) >= Rank(w.view.state) && to != Connected
  {
    hide CheckCommand, ProcessDnsEvent, SocketSend, Credentials, Methods, Authorised, TakenFrom;
    if a.env.recv.Data? {
      RequestForward(p, w.view, a.env.recv.buffer, a.env);
    }
    if a.kind.DnsSock? {
      ResponseForward(w.view, a.kind.index, a.flags, a.env);
    }
  }

  lemma RelayStays(p: Params, w: World, a: Act)
    requires Inv(p, w) && Enabled(w, a) && a.Deliver? && Rank(w.view.state) == 5
    ensures Next(p, w, a).view.state == w.view.state
  {
    hide SocketSend, Authorised, TakenFrom;
    forall v: View, d, buffer: Option<RecvBuffer>, sent | buffer.Some? ==> buffer.value.Valid()
      ensures SocketSend(v, d, buffer, sent).view.state == v.state
    {
      SendKeepsState(v, d, buffer, sent);
    }
  }

  lemma SendKeepsState(v: View, d: Direction, buffer: Option<RecvBuffer>, sent: Sent)
    requires buffer.Some? ==> buffer.value.Valid()
    ensures SocketSend(v, d, buffer, sent).view.state == v.state
  {
  }

  /** One event moves the state forward or leaves it, and never from one kind of relay to the other. */
  lemma StepForward(p: Params, w: World, a: Act)
    requires Inv(p, w) && Enabled(w, a)
    ensures Rank(Next(p, w, a).view.state) >= Rank(w.view.state)
    ensures Rank(w.view.state) == 5 ==> Next(p, w, a).view.state == w.view.state
  {
    hide Next, Inv;
    if a == Poll {
      PollStays(p, w);
    } else {
      match Rank(w.view.state)
      case 4 => ConnectingExactly(p, w, a);
      case 5 => RelayStays(p, w, a);
      case 6 => NotInvalid(p, w);
      case _ => EarlyForward(p, w, a);
    }
  }

  lemma PollStays(p: Params, w: World)
    requires Enabled(w, Poll)
    ensures Next(p, w, Poll).view == w.view
  {
  }

  lemma PrefixOfRun(p: Params, acts: seq<Act>)
    requires Run(p, acts).Some? && acts != []
    ensures var before := acts[..|acts| - 1];
      && Run(p, before).Some? && Enabled(Run(p, before).value, acts[|acts| - 1])
      && Run(p, acts).value == Next(p, Run(p, before).value, acts[|acts| - 1])
  {
  }

  /** Whatever happens between two points of a run, the state at the later one is not behind. */
  lemma {:induction false} OnlyForward(p: Params, acts: seq<Act>, i: nat)
    requires Run(p, acts).Some? && i <= |acts|
    ensures Run(p, acts[..i]).Some?
    ensures Rank(Run(p, acts[..i]).value.view.state) <= Rank(Run(p, acts).value.view.state)
    decreases |acts|
  {
    hide Next, Rank;
    if i == |acts| {
      assert acts[..i] == acts;
    } else {
      var before := acts[..|acts| - 1];
      PrefixOfRun(p, acts);
      assert before[..i] == acts[..i];
      OnlyForward(p, before, i);
      RunKeeps(p, before);
      StepForward(p, Run(p, before).value, acts[|acts| - 1]);
    }
  }

  /** Once there is a remote socket, the session keeps it and what it was made for, and its UDP socket. */
  predicate SameSockets(v: View, v': View) {
    v'.remote.Some? && v'.log.targets == v.log.targets && v'.udp == v.udp && v'.log.commands == v.log.commands
  }

  lemma SendKeepsSockets(v: View, d: Direction, buffer: Option<RecvBuffer>, sent: Sent)
    requires v.remote.Some? && (buffer.Some? ==> buffer.value.Valid())
    ensures SameSockets(v, SocketSend(v, d, buffer, sent).view)
  {
  }

  lemma RelayKeepsSockets(p: Params, w: World, a: Act)
    requires Inv(p, w) && Enabled(w, a) && a.Deliver? && w.view.state == Connected
    ensures SameSockets(w.view, Next(p, w, a).view)
  {
    hide SocketSend, Authorised, TakenFrom;
    forall v: View, d, buffer: Option<RecvBuffer>, sent | v.remote.Some? && (buffer.Some? ==> buffer.value.Valid())
      ensures SameSockets(v, SocketSend(v, d, buffer, sent).view)
    {
      SendKeepsSockets(v, d, buffer, sent);
    }
  }

  lemma AssociationKeepsSockets(p: Params, w: World, a: Act)
    requires Inv(p, w) && Enabled(w, a) && a.Deliver? && w.view.state == Associated
    ensures SameSockets(w.view, Next(p, w, a).view)
  {
    hide Authorised, TakenFrom, ReadPacket;
  }

  lemma ConnectingKeepsSockets(p: Params, w: World, a: Act)
    requires Inv(p, w) && Enabled(w, a) && a.Deliver? && w.view.state == ConnectingRemote
    ensures SameSockets(w.view, Next(p, w, a).view)
  {
    hide Authorised, TakenFrom;
  }

  lemma NoRemoteYet(p: Params, w: World)
    requires Inv(p, w) && w.outcome == Keep && w.view.remote.Some?
    ensures Rank(w.view.state) == 4 || Rank(w.view.state) == 5
  {
    hide Authorised, TakenFrom;
  }

  lemma StepKeepsSockets(p: Params, w: World, a: Act)
    requires Inv(p, w) && Enabled(w, a) && w.view.remote.Some?
    ensures SameSockets(w.view, Next(p, w, a).view)
  {
    hide Next, Inv;
    NoRemoteYet(p, w);
    if a == Poll {
      PollStays(p, w);
    } else {
      match w.view.state
      case ConnectingRemote => ConnectingKeepsSockets(p, w, a);
      case Connected => RelayKeepsSockets(p, w, a);
      case Associated => AssociationKeepsSockets(p, w, a);
      case _ =>
    }
  }

  /** The remote socket and the UDP socket of a session are assigned at most once on a run: from the first
      one on, no event changes whether they exist, or for what addresses and command. So no pointer that
      the poller holds can be to a socket that has been replaced. */
  lemma {:induction false} SocketsAssignedOnce(p: Params, acts: seq<Act>, i: nat)
    requires Run(p, acts).Some? && i <= |acts|
    ensures Run(p, acts[..i]).Some?
    ensures var v, v' := Run(p, acts[..i]).value.view, Run(p, acts).value.view;
      v.remote.Some? ==> SameSockets(v, v')
    decreases |acts|
  {
    hide Next, Inv;
    if i == |acts| {
      assert acts[..i] == acts;
    } else {
      var before := acts[..|acts| - 1];
      PrefixOfRun(p, acts);
      assert before[..i] == acts[..i];
      SocketsAssignedOnce(p, before, i);
      RunKeeps(p, before);
      if Run(p, before).value.view.remote.Some? {
        StepKeepsSockets(p, Run(p, before).value, acts[|acts| - 1]);
      }
    }
  }

  // ---------- the success reply ----------

  /** The session becomes a relay exactly when a pending connection attempt is reported writable and the
      address of the peer can be asked for, and that is when, and the only time that, success is replied
      for a connection. */
  lemma ConnectedExactly(p: Params, w: World, a: Act)
    requires Inv(p, w) && Enabled(w, a) && w.view.state != Connected
    ensures
      var v := Next(p, w, a).view;
      && (v.state == Connected <==> ConnectionReported(w.view, a))
      && (v.state == Connected <==>
            w.view.state == ConnectingRemote && w.view.log.replies == [] && v.log.replies == [Success])
  {
    hide Next, Inv;
    if a == Poll {
      PollStays(p, w);
    } else {
      match w.view.state
      case ConnectingRemote => ConnectingExactly(p, w, a);
      case Associated => RelayStays(p, w, a);
      case Invalid => NotInvalid(p, w);
      case _ => EarlyForward(p, w, a);
    }
  }

  /** A pending connection attempt is reported writable, and nothing keeps the address of the peer from
      being asked for. */
  predicate ConnectionReported(v: View, a: Act) {
    && a.Deliver? && a.kind == RemoteSock && v.state == ConnectingRemote && a.env.named
    && Write in a.flags && Closed !in a.flags && Error !in a.flags
  }

  lemma TryNextReplies(p: Params, w: World, e: Env)
    requires Inv(p, w) && w.outcome == Keep && w.view.state == ConnectingRemote
    ensures var v := TryConnectNext(w.view, e).view;
      v.state == ConnectingRemote && (w.view.log.replies == [] ==> v.log.replies != [Success])
  {
    hide Authorised, TakenFrom;
    assert forall r: Reply :: ([] + [r])[0] == r;
  }

  lemma CouldConnectReplies(p: Params, w: World, e: Env)
    requires Inv(p, w) && w.outcome == Keep && w.view.state == ConnectingRemote
    requires w.view.log.replies == []
    ensures var v := CouldConnect(w.view, e).view;
      if e.named then v.state == Connected && v.log.replies == [Success]
      else v.state == ConnectingRemote && v.log.replies == []
  {
    hide Authorised, TakenFrom;
  }

  lemma ConnectingExactly(p: Params, w: World, a: Act)
    requires Inv(p, w) && Enabled(w, a) && a.Deliver? && w.view.state == ConnectingRemote
    ensures
      var v := Next(p, w, a).view;
      && Rank(v.state) >= 4
      && (v.state == Connected <==> ConnectionReported(w.view, a))
      && (v.state == Connected <==> w.view.log.replies == [] && v.log.replies == [Success])
  {
    hide TryConnectNext, CouldConnect, SocketSend, Authorised, TakenFrom;
    if a.kind == RemoteSock {
      assert a.kind in w.polled;
      TryNextReplies(p, w, a.env);
      CouldConnectReplies(p, w, a.env);
    }
  }

  // ---------- undefined behaviour and exceptions ----------

  /** Octets are scheduled for the socket that can be written again, and the send takes only some. */
  predicate PartialFlush(v: View, a: Act) {
    && v.state == Connected && a.Deliver? && a.env.sent.Wrote?
    && Write in a.flags && Closed !in a.flags && Error !in a.flags
    && (a.kind == ClientSock ==> a.env.sent.count < |v.clientBuffer|)
    && (a.kind == RemoteSock ==> a.env.sent.count < |v.remoteBuffer|)
  }

  /** The client sends a command that the server carries out. */
  predicate Commands(v: View, a: Act) {
    && v.state == Authenticated && a.Deliver? && Closed !in a.flags && Error !in a.flags && a.env.recv.Data?
    && (CommandOf(a.env.recv.buffer.block) == Connect || CommandOf(a.env.recv.buffer.block) == UdpAssociate)
  }

  /** It names its destination, and the server can ask for names. */
  predicate AsksName(p: Params, v: View, a: Act) {
    Commands(v, a) && a.env.recv.buffer.block[3] == 3 && p.hasDns
  }

  /** A name of 255 octets with labels of at most 63 octets and no dot at its end. */
  predicate Overlong(name: seq<byte>) {
    |name| == MAX_DOMAIN_LEN && !EndsWithDot(name) && ShortLabels(ScannedLabels(name))
  }

  predicate AsksOverlongName(p: Params, v: View, a: Act) {
    AsksName(p, v, a) && a.env.canOpen && Overlong(DomainName(a.env.recv.buffer.block))
  }

  predicate Responds(v: View, a: Act) {
    && v.state == ResolvingDomainName && a.Deliver? && a.kind.DnsSock? && Closed !in a.flags && Error !in a.flags
    && a.env.response.Received?
  }

  /** A response with an answer of class IN and type A or AAAA that has no RDATA. */
  ghost predicate HollowResponse(octets: seq<byte>) {
    DecodeMessage(octets, 0).Parsed? && exists rr :: rr in DecodeMessage(octets, 0).value.answers && Hollow(rr)
  }

  ghost predicate BreaksDecoder(v: View, a: Act) {
    Responds(v, a) &&
    (DecodeMessage(a.env.response.octets, 0) == Failed(PopFromEmpty) || HollowResponse(a.env.response.octets))
  }

  /** A packet from the client that is shorter than the IPv6 header it announces. */
  predicate ShortPacket(v: View, a: Act) {
    && v.state == Associated && a.Deliver? && a.kind == UdpSock && Closed !in a.flags && Error !in a.flags
    && a.env.recv.Data? && a.env.fromClient
    && 11 <= a.env.recv.buffer.size <= 21 && a.env.recv.buffer.block[3] == 4
  }

  ghost predicate EndsUndefined(p: Params, v: View, a: Act) {
    PartialFlush(v, a) || AsksOverlongName(p, v, a) || BreaksDecoder(v, a) || ShortPacket(v, a)
  }

  /** A command is carried out although a socket cannot be opened or, for an association, the address of
      the client's socket cannot be asked for. */
  predicate CommandThrows(c: Command, e: Env) {
    !e.canOpen || (c == UdpAssociate && !e.named)
  }

  predicate RequestThrows(p: Params, v: View, a: Act) {
    && Commands(v, a)
    && var data := a.env.recv.buffer.block;
       if data[3] == 1 || data[3] == 4 then CommandThrows(CommandOf(data), a.env)
       else data[3] == 3 && p.hasDns && (!a.env.canOpen || !ShortLabels(ScannedLabels(DomainName(data))))
  }

  /** The response cannot be decoded, or lists addresses and the command throws. */
  predicate ResponseThrows(v: View, a: Act) {
    && Responds(v, a) && v.dns != []
    && match LookUp(a.env.response.octets, v.dns[0])
       case Malformed(error) => error != PopFromEmpty
       case NullRData => false
       case Found(addresses) => addresses != [] && CommandThrows(v.command, a.env)
  }

  /** The connection is there, but the address of the peer cannot be asked for any more. */
  predicate ConnectThrows(v: View, a: Act) {
    && v.state == ConnectingRemote && a.Deliver? && a.kind == RemoteSock && !a.env.named
    && Write in a.flags && Closed !in a.flags && Error !in a.flags
  }

  predicate EndsThrowing(p: Params, v: View, a: Act) {
    RequestThrows(p, v, a) || ResponseThrows(v, a) || ConnectThrows(v, a)
  }

  lemma RelayEnds(p: Params, w: World, a: Act)
    requires Inv(p, w) && Enabled(w, a) && w.view.state == Connected
    ensures Next(p, w, a).outcome == Undefined <==> PartialFlush(w.view, a)
    ensures Next(p, w, a).outcome != Threw
  {
    hide Authorised, TakenFrom;
  }

  lemma NegotiationEnds(p: Params, w: World, a: Act)
    requires Inv(p, w) && Enabled(w, a) && (w.view.state == Accepted || w.view.state == AuthRequested)
    ensures Next(p, w, a).outcome == Keep || Next(p, w, a).outcome == Drop
  {
    hide Authorised, TakenFrom, Credentials, Methods;
  }

  lemma CommandEnds(v: View, addresses: seq<Address>, e: Env)
    requires v.command == Connect || v.command == UdpAssociate
    ensures var r := DoCommand(v, addresses, e);
      r.outcome != Undefined && (r.outcome == Threw <==> addresses != [] && CommandThrows(v.command, e))
  {
    hide ConnectRemote;
  }

  lemma NameEnds(p: Params, v: View, data: Block, e: Env)
    requires v.dns == []
    ensures var r, name := ResolveDomainName(p, v, data, e), DomainName(data);
      && (r.outcome == Undefined <==> p.hasDns && e.canOpen && Overlong(name))
      && (r.outcome == Threw <==> p.hasDns && (!e.canOpen || !ShortLabels(ScannedLabels(name))))
  {
    hide QueryOctets, ScannedLabels;
    QueryExact(DomainName(data));
    var none: seq<byte> := [];
    NoLabels(none);
  }

  lemma NoLabels(none: seq<byte>)
    requires none == []
    ensures ShortLabels(ScannedLabels(none))
  {
  }

  lemma RequestEnds(p: Params, w: World, a: Act)
    requires Inv(p, w) && Enabled(w, a) && w.view.state == Authenticated
    ensures Next(p, w, a).outcome == Undefined <==> AsksOverlongName(p, w.view, a)
    ensures Next(p, w, a).outcome == Threw <==> RequestThrows(p, w.view, a)
  {
    hide DoCommand, ResolveDomainName, Authorised, TakenFrom, AddressOf, DomainName, Overlong, ScannedLabels;
    if Commands(w.view, a) {
      var buffer := a.env.recv.buffer;
      var v := w.view.(command := CommandOf(buffer.block), log := w.view.log.(request := Some(buffer)));
      CommandEnds(v, [AddressOf(buffer.block)], a.env);
      NameEnds(p, v, buffer.block, a.env);
    }
  }

  lemma ResponseEnds(p: Params, w: World, a: Act)
    requires Inv(p, w) && Enabled(w, a) && w.view.state == ResolvingDomainName
    ensures Next(p, w, a).outcome == Undefined <==> BreaksDecoder(w.view, a)
    ensures Next(p, w, a).outcome == Threw <==> ResponseThrows(w.view, a)
  {
    hide DoCommand, Authorised, TakenFrom, DecodeMessage, Addresses, DomainPort, Hollow;
    if Responds(w.view, a) {
      var octets, port := a.env.response.octets, w.view.dns[0];
      NullRDataExact(octets, port);
      var l := LookUp(octets, port);
      if l.Found? {
        var log := w.view.log.(response := Some(octets));
        CommandEnds(w.view.(regs := Remove(w.view.regs, a.kind), log := log), l.addresses, a.env);
      }
    }
  }

  lemma ConnectionEnds(p: Params, w: World, a: Act)
    requires Inv(p, w) && Enabled(w, a) && w.view.state == ConnectingRemote
    ensures Next(p, w, a).outcome != Undefined
    ensures Next(p, w, a).outcome == Threw <==> ConnectThrows(w.view, a)
  {
    hide Authorised, TakenFrom;
  }

  lemma AssociationEnds(p: Params, w: World, a: Act)
    requires Inv(p, w) && Enabled(w, a) && w.view.state == Associated
    ensures Next(p, w, a).outcome == Undefined <==> ShortPacket(w.view, a)
    ensures Next(p, w, a).outcome != Threw
  {
    hide Authorised, TakenFrom;
  }

  lemma StepEnds(p: Params, w: World, a: Act)
    requires Inv(p, w) && Enabled(w, a)
    ensures Next(p, w, a).outcome == Undefined <==> EndsUndefined(p, w.view, a)
    ensures Next(p, w, a).outcome == Threw <==> EndsThrowing(p, w.view, a)
  {
    hide Next, Inv;
    match w.view.state
    case Connected => RelayEnds(p, w, a);
    case Accepted => NegotiationEnds(p, w, a);
    case AuthRequested => NegotiationEnds(p, w, a);
    case Authenticated => RequestEnds(p, w, a);
    case ResolvingDomainName => ResponseEnds(p, w, a);
    case ConnectingRemote => ConnectionEnds(p, w, a);
    case Associated => AssociationEnds(p, w, a);
    case Invalid => NotInvalid(p, w);
  }

  lemma NotInvalid(p: Params, w: World)
    requires Inv(p, w) && w.outcome == Keep
    ensures w.view.state != Invalid
  {
  }

  /** An event of a run uses a null pointer or memory outside of an object if and only if it is one of
      four: a flush that the socket takes only in part, a request for a name of 255 octets, a DNS response
      with an address record without RDATA or an SRV record without a target, or a UDP packet that is
      shorter than its header. */
  lemma UndefinedExactly(p: Params, acts: seq<Act>, a: Act)
    requires Run(p, acts).Some? && Enabled(Run(p, acts).value, a)
    ensures Run(p, acts + [a]) == Some(Next(p, Run(p, acts).value, a))
    ensures Run(p, acts + [a]).value.outcome == Undefined <==> EndsUndefined(p, Run(p, acts).value.view, a)
  {
    hide Next, Inv, EndsUndefined, EndsThrowing;
    RunKeeps(p, acts);
    assert (acts + [a])[..|acts|] == acts;
    StepEnds(p, Run(p, acts).value, a);
  }

  /** An exception leaves an event of a run, and so the server's loop, if and only if a DNS response cannot
      be decoded, a label of the name asked for has more than 63 octets, or a socket cannot be opened
      or asked for its address. */
  lemma ThrownExactly(p: Params, acts: seq<Act>, a: Act)
    requires Run(p, acts).Some? && Enabled(Run(p, acts).value, a)
    ensures Run(p, acts + [a]) == Some(Next(p, Run(p, acts).value, a))
    ensures Run(p, acts + [a]).value.outcome == Threw <==> EndsThrowing(p, Run(p, acts).value.view, a)
  {
    hide Next, Inv, EndsUndefined, EndsThrowing;
    RunKeeps(p, acts);
    assert (acts + [a])[..|acts|] == acts;
    StepEnds(p, Run(p, acts).value, a);
  }
}
