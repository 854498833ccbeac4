/** A run on which a session connects to an address that nobody gave for the name it asked for. */
module StrayAnswers {
  import opened Octets
  import opened Names
  import opened Records
  import opened Messages
  import opened MessageRoundTrip
  import opened BackPatching
  import opened DnsSockets
  import opened SessionSpec
  import opened SessionRuns
  import opened SampleRuns
  import opened Destinations
  import opened HollowAnswers

  /** The name "c". */
  const OTHER: seq<byte> := [99]

  const STRAY: RR := RR(OTHER, TYPE_A, CLASS_IN, 0, Some(Address4([1, 2, 3, 4])))

  /** Not a response by its flags, with an ID that was not asked with, and without a question. */
  const DATAGRAM: Msg := Msg(Header(7, 0, 0, 0, 0, 0, 0, 0), [], [STRAY], [], [])

  lemma OtherIsOk()
    ensures NameOk(OTHER)
  {
    SplitWithoutDots(OTHER);
  }

  lemma StrayIsOk()
    ensures MsgOk(DATAGRAM) && MessageSafe(DATAGRAM) && RecordsReadable(DATAGRAM.answers)
    ensures !MessageEndsInPointer(DATAGRAM)
  {
    hide NameOk;
    OtherIsOk();
    StrayIsSafe(BehindQuestions(DATAGRAM));
  }

  lemma StrayIsSafe(P: seq<byte>)
    ensures RecordsOk([STRAY]) && RecordsSafe(P, [STRAY]) && !SectionEndsInPointer(P, [STRAY])
  {
    hide NameOk;
    OtherIsOk();
    assert [STRAY][1..] == [];
  }

  lemma StrayRoom(H: seq<byte>)
    requires |H| == 12
    ensures AppendRecord(H, STRAY).Ok? && 12 <= |AppendRecord(H, STRAY).value| <= 100
  {
    hide AppendName, NameOk;
    OtherIsOk();
    NameTakesRoom(H, OTHER);
  }

  lemma StrayLength()
    ensures AppendMessage(DATAGRAM).Ok? && 0 < |AppendMessage(DATAGRAM).value| <= MAX_RESPONSE
  {
    hide AppendRecord, HeaderOctets;
    StrayRoom(HeaderOctets(DATAGRAM));
    assert [STRAY][1..] == [];
    assert AppendRecords(HeaderOctets(DATAGRAM), [STRAY]) == AppendRecord(HeaderOctets(DATAGRAM), STRAY);
  }

  lemma StrayIsFound() returns (octets: seq<byte>)
    ensures 0 < |octets| <= MAX_RESPONSE && DecodeMessage(octets, 0) == Parsed(DATAGRAM, |octets|)
    ensures forall port :: LookUp(octets, port) == Found([Address(true, [1, 2, 3, 4], port)])
  {
    hide AppendMessage, DecodeMessage, MsgOk, MessageSafe, MessageEndsInPointer;
    StrayIsOk();
    StrayLength();
    octets := AppendMessage(DATAGRAM).value;
    MessageRoundTripExact(octets, DATAGRAM, 0);
    forall port ensures Addresses([STRAY], port) == Found([Address(true, [1, 2, 3, 4], port)]) {
      assert [STRAY][1..] == [];
    }
  }

  /** The client asks for the root name. What the DNS socket then receives has another ID, is marked as a
      query, repeats no question, and holds one address, of the name "c"; the session connects to it. */
  lemma StrayAnswerIsTaken(p: Params) returns (acts: seq<Act>)
    requires p.Method() == NoAuth && p.hasDns
    ensures Run(p, acts).Some?
    ensures var log := Run(p, acts).value.view.log;
      && log.request.Some? && DomainName(log.request.value.block) == []
      && log.response.Some? && DecodeMessage(log.response.value, 0) == Parsed(DATAGRAM, |log.response.value|)
      && |log.attempts| == 1 && log.attempts[0].host == [1, 2, 3, 4]
      && OwnedBy(DATAGRAM.answers, []) == [] && !AllOwnedBy(DATAGRAM.answers, [])
  {
    hide Run, DecodeMessage, LookUp, LetIn, TakenFrom;
    acts := Resolves(p);
    RunKeeps(p, acts);
    var octets := StrayIsFound();
    acts := Happened(p, acts, DnsSock(0), Read, Answers(Received(octets)));
    assert STRAY in DATAGRAM.answers && IsAddress(STRAY);
    assert [STRAY][1..] == [];
  }
}
