/** The DNS client of a session: the question it asks and what it takes from a response. */
module DnsSockets {
  import opened Octets
  import opened Names
  import opened NameText
  import opened Records
  import opened RecordCodec
  import opened Messages
  import opened MessageRoundTrip
  import opened MessageCodec

  const TYPE_A: uint := 1
  const TYPE_AAAA: uint := 28
  const CLASS_IN: uint := 1

  /** `IPAddress`: 4 or 16 octets and a port. */
  datatype Address = Address(isIPv4: bool, host: seq<byte>, port: nat)

  // ---------- the question ----------

  function QueryFor(name: seq<byte>): Msg {
    Msg(Header(0, 0, 0, 0, 0, 0, 0, 0), [Question(name, TYPE_A, CLASS_IN)], [], [], [])
  }

  /** What is sent for a name. */
  function QueryOctets(name: seq<byte>): Result<seq<byte>> {
    AppendMessageInto(QueryFor(name), MAX_MSG_LEN)
  }

  lemma {:induction false} LabelsTakeRoom(P: seq<byte>, ls: seq<Label>, tail: seq<byte>)
    requires ShortLabels(ls)
    ensures |AppendLabels(P, ls, tail)| <= |P| + |Flat(ls)| + 2
    decreases |ls|
  {
    if ls != [] && FirstMatch(P, Flat(ls) + tail).None? {
      LabelsTakeRoom(P + LabelWire(ls[0]), ls[1..], tail);
    }
  }

  lemma NameTakesRoom(P: seq<byte>, text: seq<byte>)
    requires AppendName(P, text, true).Ok?
    ensures |AppendName(P, text, true).value| <= |P| + |text| + 3
  {
    hide AppendLabels, Flat, Split;
    if text != [] {
      FlatLength(if EndsWithDot(text) then text[..|text| - 1] else text);
      LabelsTakeRoom(P, ScannedLabels(text), Terminator(text));
    }
  }

  lemma QueryLayout(name: seq<byte>)
    ensures var H := HeaderOctets(QueryFor(name));
      |H| == 12 && QueryOctets(name) ==
        match AppendQuestion(H, Question(name, TYPE_A, CLASS_IN))
        case Throw(e) => Throw(e)
        case Ok(P) => if |P| > MAX_MSG_LEN then Throw(BehindBuffer) else Ok(P)
  {
    hide AppendQuestion, HeaderOctets;
    var H, q := HeaderOctets(QueryFor(name)), Question(name, TYPE_A, CLASS_IN);
    assert [q][1..] == [];
    assert AppendQuestions(H, [q]) == AppendQuestion(H, q);
  }

  /** The names that fit a SOCKS request can be asked for, except for reasons that lie in the name. */
  lemma QueryExact(name: seq<byte>)
    requires |name| <= MAX_DOMAIN_LEN
    ensures match QueryOctets(name) case Throw(e) => NameError(name) == Some(e) case Ok(_) => NameError(name) == None
  {
    hide AppendName, NameError, QueryOctets, HeaderOctets;
    QueryLayout(name);
    var H := HeaderOctets(QueryFor(name));
    NameErrorExact(H, name, true);
    if AppendName(H, name, true).Ok? {
      NameTakesRoom(H, name);
    }
  }

  /** What is sent for an agreed name is read, by this decoder, as the question for that name. */
  lemma QueryComesBack(name: seq<byte>)
    requires NameOk(name)
    ensures QueryOctets(name).Ok? && DecodeMessage(QueryOctets(name).value, 0) ==
              Parsed(QueryFor(name), |QueryOctets(name).value|)
  {
    hide AppendMessageInto, DecodeMessage, AppendMessage;
    assert NameError(name) == None by {
      NameErrorExact([], name, true);
      assert AppendName([], name, true).Ok?;
    }
    QueryExact(name);
    QueryIsSafe(name);
    EncodedComesBack(QueryFor(name), MAX_MSG_LEN, 0);
  }

  lemma QueryIsSafe(name: seq<byte>)
    requires NameOk(name)
    ensures MsgOk(QueryFor(name)) && MessageSafe(QueryFor(name)) && !MessageEndsInPointer(QueryFor(name))
    ensures var m := QueryFor(name);
      RecordsReadable(m.answers) && RecordsReadable(m.authorities) && RecordsReadable(m.additional)
  {
    hide NameOk;
  }

  // ---------- the response ----------

  /** What comes out of a response: addresses, an exception of the decoder, or the dereference of an
      RDATA pointer that is null. */
  datatype Lookup = Found(addresses: seq<Address>) | Malformed(error: Error) | NullRData

  predicate IsAddress(rr: RR) {
    rr.rclass == CLASS_IN && (rr.rtype == TYPE_A || rr.rtype == TYPE_AAAA)
  }

  /** The address in the RDATA of an answer, if there is one. */
  function AddressIn(rr: RR, port: nat): Option<Address> {
    if rr.rdata.None? then None
    else if rr.rdata.value.Address4? then Some(Address(true, rr.rdata.value.addr4, port))
    else if rr.rdata.value.Address6? then Some(Address(false, rr.rdata.value.addr6, port))
    else None
  }

  function Prepend(first: seq<Address>, l: Lookup): Lookup {
    match l case Found(rest) => Found(first + rest) case _ => l
  }

  /** The addresses in a list of answers, in order. */
  function Addresses(rrs: seq<RR>, port: nat): (l: Lookup)
    ensures !l.Malformed?
  {
    if rrs == [] then Found([])
    else
      var rest := Addresses(rrs[1..], port);
      if !IsAddress(rrs[0]) then rest
      else
        match AddressIn(rrs[0], port)
        case Some(a) => Prepend([a], rest)
        case None => NullRData
  }

  /** `DnsSocket::get_response` for the octets received. */
  function LookUp(octets: seq<byte>, port: nat): Lookup {
    match DecodeMessage(octets, 0)
    case Failed(e) => Malformed(e)
    case Parsed(m, _) => Addresses(m.answers, port)
  }

  /** An answer that is taken for an address although it has no RDATA. */
  predicate Hollow(rr: RR) {
    IsAddress(rr) && rr.rdata == None
  }

  /** Decoded records of type A and AAAA hold addresses if they hold anything. */
  predicate WellTyped(rr: RR) {
    rr.rdata.Some? ==>
      (rr.rtype == TYPE_A ==> rr.rdata.value.Address4?) && (rr.rtype == TYPE_AAAA ==> rr.rdata.value.Address6?)
  }

  lemma RecordIsWellTyped(b: seq<byte>, pos: nat)
    requires pos <= |b| && DecodeRecord(b, pos).Parsed?
    ensures WellTyped(DecodeRecord(b, pos).value)
  {
    hide DecodeName, DecodeFixed, DecodeTexts, DecodeSoa, DecodeNaptr, DecodeSrv;
  }

  lemma {:induction false} RecordsAreWellTyped(b: seq<byte>, pos: nat, n: nat)
    requires pos <= |b| && DecodeRecords(b, pos, n).Parsed?
    ensures forall i | 0 <= i < n :: WellTyped(DecodeRecords(b, pos, n).value[i])
    decreases n
  {
    hide DecodeRecord, WellTyped;
    if n > 0 {
      RecordIsWellTyped(b, pos);
      RecordsAreWellTyped(b, DecodeRecord(b, pos).next, n - 1);
    }
  }

  lemma AnswersAreWellTyped(b: seq<byte>)
    requires DecodeMessage(b, 0).Parsed?
    ensures forall rr | rr in DecodeMessage(b, 0).value.answers :: WellTyped(rr)
  {
    hide DecodeRecords, DecodeQuestions, WellTyped;
    var h := DecodeHeader(b).value;
    var p := DecodeQuestions(b, 12, h.counts.qd).next;
    RecordsAreWellTyped(b, p, h.counts.an);
  }

  lemma {:induction false} HollowExact(rrs: seq<RR>, port: nat)
    requires forall rr | rr in rrs :: WellTyped(rr)
    ensures Addresses(rrs, port).NullRData? <==> exists rr :: rr in rrs && Hollow(rr)
  {
    if rrs != [] {
      var rest := rrs[1..];
      HollowExact(rest, port);
      assert forall rr :: rr in rrs <==> rr == rrs[0] || rr in rest;
      assert rrs[0] in rrs && WellTyped(rrs[0]);
      if Addresses(rest, port).NullRData? {
        var rr :| rr in rest && Hollow(rr);
        assert rr in rrs;
      }
    }
  }

  /** A null pointer is dereferenced if and only if the response can be decoded and one of its answers
      has class IN, type A or AAAA, and no RDATA. */
  lemma NullRDataExact(octets: seq<byte>, port: nat)
    ensures LookUp(octets, port).NullRData? <==>
      DecodeMessage(octets, 0).Parsed? && exists rr :: rr in DecodeMessage(octets, 0).value.answers && Hollow(rr)
  {
    hide DecodeMessage, Hollow, WellTyped;
    if DecodeMessage(octets, 0).Parsed? {
      AnswersAreWellTyped(octets);
      HollowExact(DecodeMessage(octets, 0).value.answers, port);
    }
  }

  // ---------- an SRV record that is too short ----------

  lemma ShortTarget(b: seq<byte>, pos: nat, limit: nat)
    requires DecodeTarget(b, pos, limit).Parsed?
    ensures pos < limit ==> pos < |b|
    ensures var n := |DecodeTarget(b, pos, limit).value|;
      && (n == 0 <==> limit <= pos)
      && (n == 1 <==> limit == pos + 1 && b[pos] == 0)
  {
    if pos < limit {
      var p := GetCharString(b, pos).next;
      assert |GetCharString(b, pos).value| == b[pos] && p == pos + 1 + b[pos];
      if p < limit {
        assert |DecodeTarget(b, p, limit).value| > 0;
      }
    }
  }

  /** A character is taken from an empty target if and only if RDLENGTH leaves no room for a target, or
      room for one empty string only. */
  lemma PopFromEmptyExact(b: seq<byte>, pos: nat, size: nat)
    requires size < 0x1_0000 && pos + 6 <= |b|
    ensures DecodeSrv(b, pos, size) == Failed(PopFromEmpty) <==>
      size == 6 || (size == 7 && pos + 6 < |b| && b[pos + 6] == 0)
  {
    hide DecodeTarget, GetCharString, TargetSize;
    var r := DecodeTarget(b, pos + 6, pos + 6 + TargetSize(size));
    if r.Parsed? {
      ShortTarget(b, pos + 6, pos + 6 + TargetSize(size));
    }
    OnlyBehindBuffer(b, pos + 6, pos + 6 + TargetSize(size));
    TargetSizes(size);
    if size == 6 {
      EmptyTarget(b, pos + 6);
    }
    if size == 7 && pos + 6 < |b| && b[pos + 6] == 0 {
      OneEmptyString(b, pos + 6);
    }
  }

  lemma TargetSizes(size: nat)
    requires size < 0x1_0000
    ensures TargetSize(size) == if size >= 6 then size - 6 else size + 0xFFFF_FFFA
  {
  }

  lemma EmptyTarget(b: seq<byte>, pos: nat)
    ensures DecodeTarget(b, pos, pos) == Parsed([], pos)
  {
  }

  lemma OneEmptyString(b: seq<byte>, pos: nat)
    requires pos < |b| && b[pos] == 0
    ensures DecodeTarget(b, pos, pos + 1).Parsed?
  {
    EmptyTarget(b, pos + 1);
  }

  lemma {:induction false} OnlyBehindBuffer(b: seq<byte>, pos: nat, limit: nat)
    ensures DecodeTarget(b, pos, limit).Failed? ==> DecodeTarget(b, pos, limit).error == BehindBuffer
    decreases |b| - pos
  {
    if pos < limit && GetCharString(b, pos).Parsed? {
      OnlyBehindBuffer(b, GetCharString(b, pos).next, limit);
    }
  }

  // ---------- the socket ----------

  class DnsSocket {
    const domainName: seq<byte>
    const port: nat

    constructor (domainName: seq<byte>, port: nat)
      ensures this.domainName == domainName && this.port == port
    {
      this.domainName, this.port := domainName, port;
    }

    /** The octets to send, unless the name cannot be written. */
    method Query() returns (r: Result<seq<byte>>)
      requires |domainName| <= MAX_DOMAIN_LEN
      ensures r == QueryOctets(domainName)
    {
      hide NameError, AppendMessageInto, QueryFor;
      QueryExact(domainName);
      var message := NewQuery();
      var buffer := new byte[MAX_MSG_LEN];
      var bufferSize, encoded := message.Encode(buffer);
      if encoded.Throw? {
        return Throw(encoded.error);
      }
      return Ok(buffer[..bufferSize]);
    }

    method NewQuery() returns (message: Message)
      ensures fresh(message) && message.Value() == QueryFor(domainName)
      ensures message.FirstNameError() == NameError(domainName)
      ensures message.mAnswers == [] && message.mAuthorities == [] && message.mAdditional == []
    {
      message := new Message();
      var qs := new QuerySection(domainName);
      qs.mQType := TYPE_A;
      message.mQueries := message.mQueries + [qs];
    }

    /** Decodes the octets received and collects the addresses among the answers. */
    method GetResponse(octets: seq<byte>) returns (l: Lookup)
      ensures l == LookUp(octets, port)
    {
      hide DecodeMessage, Addresses, Values, Questions;
      var buffer := Received(octets);
      var message := new Message();
      var decoded := message.Decode(buffer);
      if decoded.Throw? {
        return Malformed(decoded.error);
      }
      l := Collect(message.mAnswers);
    }

    /** The array as `recvfrom` leaves it. */
    method Received(octets: seq<byte>) returns (buffer: array<byte>)
      ensures fresh(buffer) && buffer[..] == octets
    {
      buffer := new byte[|octets|];
      forall i | 0 <= i < |octets| {
        buffer[i] := octets[i];
      }
    }

    method Collect(answers: seq<ResourceRecord>) returns (l: Lookup)
      ensures l == Addresses(Values(answers), port)
    {
      hide Values;
      ghost var vs := Values(answers);
      var addresses: seq<Address> := [];
      for i := 0 to |answers|
        invariant Addresses(vs, port) == Prepend(addresses, Addresses(vs[i..], port))
      {
        AddressesNext(vs, i, port, addresses);
        var answer := answers[i];
        if IsAddress(answer.Value()) {
          match AddressIn(answer.Value(), port)
          case None => return NullRData;
          case Some(a) => addresses := addresses + [a];
        }
      }
      assert vs[|answers|..] == [] && addresses + [] == addresses;
      return Found(addresses);
    }
  }

  /** The next answer ends the walk or adds at most one address. */
  lemma AddressesNext(vs: seq<RR>, i: nat, port: nat, addresses: seq<Address>)
    requires i < |vs|
    ensures
      var rest := Addresses(vs[i + 1..], port);
      Prepend(addresses, Addresses(vs[i..], port)) ==
        if !IsAddress(vs[i]) then Prepend(addresses, rest)
        else
          match AddressIn(vs[i], port)
          case None => NullRData
          case Some(a) => Prepend(addresses + [a], rest)
  {
    assert vs[i..][0] == vs[i] && vs[i..][1..] == vs[i + 1..];
    var rest := Addresses(vs[i + 1..], port);
    var a := AddressIn(vs[i], port);
    if rest.Found? && a.Some? {
      assert addresses + ([a.value] + rest.addresses) == addresses + [a.value] + rest.addresses;
    }
  }
}
