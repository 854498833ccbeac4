/** What a session connects to, and what that has to do with what its client has sent and what was asked of
    the DNS server. */
module Destinations {
  import opened Octets
  import opened Records
  import opened Messages
  import opened DnsSockets
  import opened SessionSpec
  import opened SessionRuns

  // ---------- the request ----------

  /** Where a request of a known address type ends. */
  function RequestEnd(data: Block): nat {
    if data[3] == 1 then 10 else if data[3] == 4 then 22 else 7 + data[4] as int
  }

  /** The octets received begin with a request to connect to this address. */
  predicate SentAddress(received: seq<byte>, a: Address) {
    var n := if a.isIPv4 then 4 else 16;
    && |received| >= 6 + n && received[1] == 1 && received[3] == (if a.isIPv4 then 1 else 4)
    && received[4..4 + n] == a.host && received[4 + n] as int * 0x100 + received[5 + n] == a.port
  }

  /** The octets received begin with a request to connect to this name and port. */
  predicate SentName(received: seq<byte>, name: seq<byte>, port: nat) {
    var n := |name|;
    && |received| >= 7 + n && received[1] == 1 && received[3] == 3 && received[4] == n
    && received[5..5 + n] == name && received[5 + n] as int * 0x100 + received[6 + n] == port
  }

  /** The client has sent the destination that the server reads from the buffer. */
  predicate SentDestination(request: RecvBuffer)
    requires request.Valid()
  {
    var data := request.block;
    if data[3] == 1 || data[3] == 4 then SentAddress(request.Received(), AddressOf(data))
    else SentName(request.Received(), DomainName(data), DomainPort(data))
  }

  /** Command, address type and destination were sent if and only if the octets received go to the end of
      the request. */
  lemma DestinationSentExactly(request: RecvBuffer)
    requires request.Valid() && CommandOf(request.block) == Connect
    requires request.block[3] == 1 || request.block[3] == 3 || request.block[3] == 4
    ensures SentDestination(request) <==> request.size >= RequestEnd(request.block)
  {
    var data, r := request.block, request.Received();
    if request.size >= RequestEnd(data) {
      match data[3]
      case 1 => assert r[4..8] == data[4..8];
      case 4 => assert r[4..20] == data[4..20];
      case _ => assert r[5..5 + data[4] as int] == data[5..5 + data[4] as int];
    }
  }

  /** On every run the addresses that are tried are, in their order and each at most once, those read
      from the buffer of the request, with its port: the address in it, or, if it has a name, those in a
      datagram that the DNS socket has received. The client has sent this destination if and only if the
      octets received go to the end of the request. */
  lemma TargetsAreRead(p: Params, acts: seq<Act>)
    requires Run(p, acts).Some?
    ensures var log := Run(p, acts).value.view.log;
      log.attempts != [] ==>
        && log.attempts <= log.targets && TakenFrom(log.request, log.response, log.targets)
        && (SentDestination(log.request.value) <==> log.request.value.size >= RequestEnd(log.request.value.block))
  {
    hide LookUp, LetIn, RequestEnd, SentDestination, AddressOf, DomainPort;
    RunKeeps(p, acts);
    var log := Run(p, acts).value.view.log;
    if log.attempts != [] {
      DestinationSentExactly(log.request.value);
    }
  }

  // ---------- the response ----------

  /** What the session looks at in an answer is the same in both. */
  predicate SameToSession(x: RR, y: RR) {
    x.rclass == y.rclass && x.rtype == y.rtype && x.rdata == y.rdata
  }

  predicate AllSame(xs: seq<RR>, ys: seq<RR>) {
    |xs| == |ys| && forall i | 0 <= i < |xs| :: SameToSession(xs[i], ys[i])
  }

  lemma {:induction false} AddressesOfSame(xs: seq<RR>, ys: seq<RR>, port: nat)
    requires AllSame(xs, ys)
    ensures Addresses(xs, port) == Addresses(ys, port)
    decreases |xs|
  {
    if xs != [] {
      assert SameToSession(xs[0], ys[0]);
      AddressesOfSame(xs[1..], ys[1..], port);
    }
  }

  /** Class, type and RDATA of the answers decide. ID, QR and the other flags, the questions, the owners
      and the TTL of the answers and the other sections do not matter. */
  lemma OnlyAnswersMatter(x: seq<byte>, y: seq<byte>, port: nat)
    requires DecodeMessage(x, 0).Parsed? && DecodeMessage(y, 0).Parsed?
    requires AllSame(DecodeMessage(x, 0).value.answers, DecodeMessage(y, 0).value.answers)
    ensures LookUp(x, port) == LookUp(y, port)
  {
    hide DecodeMessage, Addresses;
    AddressesOfSame(DecodeMessage(x, 0).value.answers, DecodeMessage(y, 0).value.answers, port);
  }

  /** The records of this name. */
  function OwnedBy(rrs: seq<RR>, name: seq<byte>): seq<RR> {
    if rrs == [] then []
    else if rrs[0].name == name then [rrs[0]] + OwnedBy(rrs[1..], name) else OwnedBy(rrs[1..], name)
  }

  predicate AllOwnedBy(rrs: seq<RR>, name: seq<byte>) {
    forall rr | rr in rrs && IsAddress(rr) :: rr.name == name
  }

  lemma OwnersStep(rrs: seq<RR>, name: seq<byte>)
    requires rrs != []
    ensures AllOwnedBy(rrs, name) <==> (IsAddress(rrs[0]) ==> rrs[0].name == name) && AllOwnedBy(rrs[1..], name)
  {
    assert forall rr :: rr in rrs <==> rr == rrs[0] || rr in rrs[1..];
  }

  /** Addresses of other owners can only be more. */
  lemma {:induction false} OwnersExactly(rrs: seq<RR>, name: seq<byte>, port: nat)
    requires Addresses(rrs, port).Found?
    ensures var some, all := Addresses(OwnedBy(rrs, name), port), Addresses(rrs, port);
      && some.Found? && |some.addresses| <= |all.addresses|
      && (some == all <==> AllOwnedBy(rrs, name))
    decreases |rrs|
  {
    if rrs != [] {
      var owned, rest := OwnedBy(rrs[1..], name), rrs[1..];
      OwnersExactly(rest, name, port);
      OwnersStep(rrs, name);
      assert ([rrs[0]] + owned)[1..] == owned;
      var some, all := Addresses(owned, port), Addresses(rest, port);
      if IsAddress(rrs[0]) {
        var a := AddressIn(rrs[0], port).value;
        var x, y := [a] + some.addresses, [a] + all.addresses;
        assert x == y ==> x[1..] == y[1..];
        assert ([a] + some.addresses)[1..] == some.addresses && ([a] + all.addresses)[1..] == all.addresses;
      }
    }
  }

  /** On every run that connects to a name, the addresses that are tried come from the answers of class IN
      and type A or AAAA in a datagram that can be decoded; they are the addresses that it lists for the
      name in the request if and only if none of these answers has another owner. */
  lemma AddressesOfTheName(p: Params, acts: seq<Act>)
    requires Run(p, acts).Some?
    requires var log := Run(p, acts).value.view.log;
      log.attempts != [] && log.request.Some? && log.request.value.block[3] == 3
    ensures var log := Run(p, acts).value.view.log;
      var data := log.request.value.block;
      && log.response.Some? && DecodeMessage(log.response.value, 0).Parsed?
      && var answers := DecodeMessage(log.response.value, 0).value.answers;
         && Addresses(answers, DomainPort(data)) == Found(log.targets)
         && (Addresses(OwnedBy(answers, DomainName(data)), DomainPort(data)) == Found(log.targets) <==>
               AllOwnedBy(answers, DomainName(data)))
  {
    hide DecodeMessage, Addresses, LetIn, DomainPort, DomainName, OwnedBy, AllOwnedBy;
    RunKeeps(p, acts);
    var log := Run(p, acts).value.view.log;
    var data := log.request.value.block;
    OwnersExactly(DecodeMessage(log.response.value, 0).value.answers, DomainName(data), DomainPort(data));
  }
}
