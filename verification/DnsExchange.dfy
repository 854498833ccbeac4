/** The query that is sent and the addresses that are taken from a response, in terms of octets alone. */
module DnsExchange {
  import opened Octets
  import opened Names
  import opened Records
  import opened Messages
  import opened DnsSockets
  import opened WireRecords
  import opened WireLayouts
  import opened WireMessages

  /** A query is a header of zeros that announces one question, the name, type A and class IN. */
  lemma QueryIsLaidOut(name: seq<byte>, Q: seq<byte>)
    requires QueryOctets(name) == Ok(Q)
    ensures |Q| <= 512 && |Q| > 16 && Q[..12] == [0, 0, 0, 0, 0, 1, 0, 0, 0, 0, 0, 0]
    ensures AppendName(Q[..12], name, true) == Ok(Q[..|Q| - 4]) && Q[|Q| - 4..] == [0, 1, 0, 1]
  {
    hide AppendName, AppendQuestion, HeaderOctets, QueryOctets, Number16;
    QueryLayout(name);
    var H, x := HeaderOctets(QueryFor(name)), Question(name, TYPE_A, CLASS_IN);
    QuestionIsLaidOut(H, x, Q);
    QueryHeader(name);
    TypeAndClass(Q);
    assert Q[..12] == H;
  }

  lemma QueryHeader(name: seq<byte>)
    ensures HeaderOctets(QueryFor(name)) == [0, 0, 0, 0, 0, 1, 0, 0, 0, 0, 0, 0]
  {
    hide U16, Flags;
    NoFlags();
    SmallNumbers();
    Twelve([0, 0], [0, 1]);
  }

  lemma NoFlags()
    ensures Flags(Header(0, 0, 0, 0, 0, 0, 0, 0)) == 0
  {
  }

  lemma SmallNumbers()
    ensures U16(0) == [0, 0] && U16(1) == [0, 1]
  {
  }

  lemma Twelve(z: seq<byte>, o: seq<byte>)
    requires z == [0, 0] && o == [0, 1]
    ensures z + z + (o + z + z + z) == [0, 0, 0, 0, 0, 1, 0, 0, 0, 0, 0, 0]
  {
  }

  lemma TypeAndClass(Q: seq<byte>)
    requires |Q| >= 4 && Number16(Q, |Q| - 4) == 1 && Number16(Q, |Q| - 2) == 1
    ensures Q[|Q| - 4..] == [0, 1, 0, 1]
  {
    var n := |Q| - 4;
    assert Q[n] == 0 && Q[n + 1] == 1 && Q[n + 2] == 0 && Q[n + 3] == 1;
  }

  /** The answers of class 1 and type 1 or 28, in order. */
  function Listed(rrs: seq<RR>): seq<RR> {
    if rrs == [] then []
    else if rrs[0].rclass == 1 && (rrs[0].rtype == 1 || rrs[0].rtype == 28) then [rrs[0]] + Listed(rrs[1..])
    else Listed(rrs[1..])
  }

  /** The octets of the answer's RDATA, as an IPv4 address for type 1 and an IPv6 address for type 28. */
  predicate TakenAs(rr: RR, port: nat, a: Address) {
    && a.port == port
    && match rr.rdata
       case Some(Address4(host)) => rr.rtype == 1 && a.isIPv4 && a.host == host
       case Some(Address6(host)) => rr.rtype == 28 && !a.isIPv4 && a.host == host
       case _ => false
  }

  predicate AllTaken(rrs: seq<RR>, port: nat, addresses: seq<Address>) {
    |addresses| == |rrs| && forall i | 0 <= i < |rrs| :: TakenAs(rrs[i], port, addresses[i])
  }

  lemma {:induction false} AddressesExactly(rrs: seq<RR>, port: nat)
    requires forall rr | rr in rrs :: WellTyped(rr)
    ensures match Addresses(rrs, port)
            case Found(addresses) => AllTaken(Listed(rrs), port, addresses)
            case NullRData => exists i | 0 <= i < |Listed(rrs)| :: Listed(rrs)[i].rdata == None
            case Malformed(_) => false
  {
    if rrs != [] {
      var rest := rrs[1..];
      assert rrs[0] in rrs && forall rr | rr in rest :: rr in rrs;
      AddressesExactly(rest, port);
      var l := Listed(rrs);
      if IsAddress(rrs[0]) {
        assert l == [rrs[0]] + Listed(rest);
        if rrs[0].rdata == None {
          assert l[0].rdata == None;
        } else if Addresses(rest, port).NullRData? {
          var i :| 0 <= i < |Listed(rest)| && Listed(rest)[i].rdata == None;
          assert l[i + 1].rdata == None;
        }
      }
    }
  }

  /** A response that is no message is reported, one with a listed answer without RDATA makes a null pointer be
      read, and from any other the listed answers' addresses are taken, in order and with the port given. */
  ghost predicate TakesExactly(octets: seq<byte>, port: nat, l: Lookup) {
    match l
    case Malformed(_) => forall m :: !MessageStands(octets, m)
    case NullRData =>
      exists m ::
        && MessageStands(octets, m)
        && exists i | 0 <= i < |Listed(m.answers)| :: Listed(m.answers)[i].rdata == None
    case Found(addresses) => exists m :: MessageStands(octets, m) && AllTaken(Listed(m.answers), port, addresses)
  }

  lemma ResponseReadExactly(octets: seq<byte>, port: nat)
    ensures TakesExactly(octets, port, LookUp(octets, port))
  {
    hide DecodeMessage, MessageStands, AllTaken, WellTyped;
    MessageAccepted(octets, 0);
    var d := DecodeMessage(octets, 0);
    if d.Parsed? {
      AnswersAreWellTyped(octets);
      AddressesExactly(d.value.answers, port);
      assert MessageStands(octets, d.value);
    }
  }
}
