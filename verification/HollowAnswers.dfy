/** A run on which the response of a DNS server makes the session read through a null pointer. */
module HollowAnswers {
  import opened Octets
  import opened Names
  import opened Records
  import opened Messages
  import opened MessageRoundTrip
  import opened DnsSockets
  import opened SessionSpec
  import opened SessionRuns
  import opened SessionSafety
  import opened SampleRuns

  /** An A record of class IN with RDLENGTH zero. */
  const BARE: RR := RR([], TYPE_A, CLASS_IN, 0, None)

  const RESPONSE: Msg := Msg(Header(0, 1, 0, 0, 0, 0, 0, 0), [], [BARE], [], [])

  lemma BareIsOk()
    ensures RecordOk(BARE) && MsgOk(RESPONSE) && MessageSafe(RESPONSE)
    ensures RecordsReadable(RESPONSE.answers) && !MessageEndsInPointer(RESPONSE)
  {
    assert [BARE][1..] == [];
  }

  lemma BareLength()
    ensures AppendMessage(RESPONSE).Ok? && 0 < |AppendMessage(RESPONSE).value| <= MAX_RESPONSE
  {
    BareIsOk();
    var H := HeaderOctets(RESPONSE);
    assert AppendName(H, [], true) == Ok(H + [0]);
    assert [BARE][1..] == [];
    assert |AppendRecord(H, BARE).value| == 23;
    assert AppendRecords(H, [BARE]) == AppendRecord(H, BARE);
  }

  /** The decoder accepts it. */
  lemma BareIsDecoded() returns (octets: seq<byte>)
    ensures 0 < |octets| <= MAX_RESPONSE && HollowResponse(octets)
  {
    hide AppendMessage, DecodeMessage, MsgOk, MessageSafe, MessageEndsInPointer;
    BareIsOk();
    BareLength();
    octets := AppendMessage(RESPONSE).value;
    MessageRoundTripExact(octets, RESPONSE, 0);
    var m := DecodeMessage(octets, 0).value;
    assert m.answers[0] == BARE && BARE in m.answers && Hollow(BARE);
  }

  /** Listens for a greeting and for a request with a name, both in one. */
  function Request(): (data: Block)
    ensures data[0] == 5 && data[1] == 1 && data[2] == 0 && data[3] == 3 && data[4] == 0
  {
    [5, 1, 0, 3, 0] + seq(BUFFER_SIZE - 5, _ => 0)
  }

  function Answers(response: Response): Env {
    Env(Data(RecvBuffer(Request(), 7)), WouldBlock, 2, 10, true, 30, response, true, true, true, true, 0)
  }

  lemma AsksForRoot()
    ensures QueryOctets(DomainName(Request())).Ok?
  {
    hide QueryOctets, AppendName;
    var name := DomainName(Request());
    assert name == [];
    QueryComesBack(name);
  }

  lemma Resolves(p: Params) returns (acts: seq<Act>)
    requires p.Method() == NoAuth && p.hasDns
    ensures Run(p, acts).Some?
    ensures var w := Run(p, acts).value;
      && w.outcome == Keep && w.view.state == ResolvingDomainName
      && DnsSock(0) in w.polled && Read in w.polled[DnsSock(0)]
      && w.view.command == Connect && w.view.log.request.Some? && w.view.log.request.value.block == Request()
  {
    hide Run, QueryOctets, DomainName, TakenFrom;
    acts := Start(p);
    acts := Polled(p, acts);
    assert Methods(Request())[0] == 0;
    acts := Happened(p, acts, ClientSock, Read, Answers(NoResponse));
    acts := Polled(p, acts);
    RunKeeps(p, acts);
    AsksForRoot();
    acts := Happened(p, acts, ClientSock, Read, Answers(NoResponse));
    acts := Polled(p, acts);
  }

  /** A response that the decoder accepts can end a run in undefined behaviour. */
  lemma NullRDataIsRead(p: Params) returns (acts: seq<Act>)
    requires p.Method() == NoAuth && p.hasDns
    ensures Run(p, acts).Some? && Run(p, acts).value.outcome == Undefined
  {
    hide Run, Next, HollowResponse, Inv;
    acts := Resolves(p);
    var octets := BareIsDecoded();
    var a := Deliver(DnsSock(0), {Read}, Answers(Received(octets)));
    UndefinedExactly(p, acts, a);
    acts := acts + [a];
  }
}
