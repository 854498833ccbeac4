/** A run on which a session acts for a client that has sent three octets: what the server reads behind
    them is what its receive buffer still holds. */
module StaleOctets {
  import opened Octets
  import opened SessionSpec
  import opened SessionRuns
  import opened SessionSafety
  import opened Destinations
  import opened SampleRuns

  /** A block that begins with these octets. */
  function Filled(octets: seq<byte>): (data: Block)
    requires |octets| <= BUFFER_SIZE
    ensures forall i | 0 <= i < |octets| :: data[i] == octets[i]
  {
    octets + seq(BUFFER_SIZE - |octets|, _ => 0)
  }

  /** A receive buffer of which one octet has been received; the others are left from elsewhere. */
  function OneOctet(octets: seq<byte>): RecvBuffer
    requires |octets| <= BUFFER_SIZE
  {
    RecvBuffer(Filled(octets), 1)
  }

  function Answers(octets: seq<byte>): Env
    requires |octets| <= BUFFER_SIZE
  {
    Env(Data(OneOctet(octets)), WouldBlock, 2, 10, true, 0, NoResponse, true, true, true, true, 0)
  }

  /** User name and password as a client would send them. */
  function LoginOctets(user: seq<byte>, pass: seq<byte>): (octets: seq<byte>)
    requires |user| <= 255 && |pass| <= 255
    ensures |octets| == 3 + |user| + |pass|
  {
    [5, |user|] + user + [|pass|] + pass
  }

  lemma MethodFound()
    ensures 2 in Methods(Filled([5, 1, 2]))
  {
    assert Methods(Filled([5, 1, 2]))[0] == 2;
  }

  /** Both lengths are compared with differences that have wrapped around. */
  lemma LoginFound(user: seq<byte>, pass: seq<byte>)
    requires |user| <= 255 && |pass| <= 255
    ensures Credentials(OneOctet(LoginOctets(user, pass))) == Some((user, pass))
    ensures !SentLogin(OneOctet(LoginOctets(user, pass)).Received(), user, pass)
  {
    var octets, n, m := LoginOctets(user, pass), |user|, |pass|;
    var data := Filled(octets);
    assert octets[1] == n && octets[2 + n] == m;
    assert octets[2..2 + n] == user && octets[3 + n..3 + n + m] == pass;
    assert data[2..2 + n] == user && data[3 + n..3 + n + m] == pass;
    assert Minus(1, 2) >= n && Minus(1, n + 3) >= m;
  }

  /** The session after one octet that is taken for a greeting. */
  lemma Greets(p: Params) returns (acts: seq<Act>)
    requires p.Method() == UserPass
    ensures Run(p, acts).Some?
    ensures var w := Run(p, acts).value;
      && w.outcome == Keep && w.view.state == AuthRequested && ClientSock in w.polled && Read in w.polled[ClientSock]
      && w.view.log.greeting == Some(OneOctet([5, 1, 2]))
  {
    hide Run, Credentials;
    acts := Start(p);
    acts := Polled(p, acts);
    MethodFound();
    acts := Happened(p, acts, ClientSock, Read, Answers([5, 1, 2]));
    acts := Polled(p, acts);
  }

  /** And after one octet that is taken for a login. */
  lemma LogsIn(p: Params) returns (acts: seq<Act>)
    requires p.Method() == UserPass && |p.username| <= 255 && |p.password| <= 255
    ensures Run(p, acts).Some?
    ensures var w := Run(p, acts).value;
      && w.outcome == Keep && w.view.state == Authenticated && ClientSock in w.polled && Read in w.polled[ClientSock]
      && w.view.log.greeting == Some(OneOctet([5, 1, 2]))
      && w.view.log.login == Some(OneOctet(LoginOctets(p.username, p.password)))
  {
    hide Run, Credentials, LoginOctets, OneOctet;
    acts := Greets(p);
    RunKeeps(p, acts);
    LoginFound(p.username, p.password);
    var octets := LoginOctets(p.username, p.password);
    OneOctetIsValid(octets);
    acts := Happened(p, acts, ClientSock, Read, Answers(octets));
    acts := Polled(p, acts);
  }

  lemma OneOctetIsValid(octets: seq<byte>)
    requires |octets| <= BUFFER_SIZE
    ensures OneOctet(octets).Valid() && OneOctet(octets).size == 1
  {
  }

  /** Whatever the user name and password of a server, a client that sends one octet three times can be let
      in and connected to where it did not ask for: a connection is attempted although neither the method was
      offered, nor the login sent, nor the destination. */
  lemma NothingSentLetsIn(p: Params) returns (acts: seq<Act>)
    requires p.Method() == UserPass && |p.username| <= 255 && |p.password| <= 255
    ensures Run(p, acts).Some?
    ensures var v := Run(p, acts).value.view;
      && v.remote.Some? && v.log.greeting.Some? && v.log.greeting.value.size == 1
      && v.log.login.Some? && v.log.login.value.size == 1 && v.log.request.Some? && v.log.request.value.size == 1
      && !Offered(v.log.greeting.value.Received(), Code(p.Method()))
      && !SentLogin(v.log.login.value.Received(), p.username, p.password)
      && v.log.request.value.Valid() && v.log.attempts != [] && !SentDestination(v.log.request.value)
  {
    hide Run, Credentials, LoginOctets, Authorised, TakenFrom, SentLogin, SentDestination;
    acts := LogsIn(p);
    LoginFound(p.username, p.password);
    RunKeeps(p, acts);
    DestinationSentExactly(OneOctet([5, 1, 0, 1]));
    acts := Happened(p, acts, ClientSock, Read, Answers([5, 1, 0, 1]));
  }
}
