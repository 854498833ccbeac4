/** The message class: encoding into a caller's array and decoding from it, section by section. */
module MessageCodec {
  import opened Octets
  import opened Names
  import opened DnsBuffer
  import opened Records
  import opened RecordCodec
  import opened Messages
  import opened MessageRoundTrip
  import opened WireMessages

  class QuerySection {
    var mQName: seq<byte>
    var mQType: uint
    var mQClass: uint

    function Value(): Question
      reads this`mQName, this`mQType, this`mQClass
    {
      Question(mQName, mQType, mQClass)
    }

    constructor (qName: seq<byte>)
      ensures Value() == Question(qName, 0, 1)
    {
      mQName, mQType, mQClass := qName, 0, 1;
    }

    method Encode(buffer: Buffer) returns (r: Result<()>)
      requires buffer.Valid()
      modifies buffer.mBuffer, buffer`mPos
      ensures buffer.Valid()
      ensures buffer.Appended(AppendQuestion(old(buffer.Written()), Value()),
                              old(buffer.mBuffer[..]), old(buffer.mPos), r)
      ensures NameError(mQName).Some? ==> r == Throw(NameError(mQName).value)
    {
      hide AppendName, U16, NameError;
      NameErrorExact(buffer.Written(), mQName, true);
      ghost var before, start := buffer.mBuffer[..], buffer.mPos;
      r := buffer.PutDnsDomainName(mQName, true);
      if r.Throw? {
        return;
      }
      ghost var P, mid := buffer.Written(), buffer.mBuffer[..];
      r := EncodeTwoNumbers(buffer, mQType, mQClass);
      buffer.AppendedOver(Ok(P + (U16(mQType) + U16(mQClass))), P, before, mid, start, r);
      assert P + (U16(mQType) + U16(mQClass)) == P + U16(mQType) + U16(mQClass);
    }
  }

  // ---------- what lists of objects say ----------

  function Questions(qs: seq<QuerySection>): (vs: seq<Question>)
    reads qs`mQName, qs`mQType, qs`mQClass
    ensures |vs| == |qs| && forall i | 0 <= i < |qs| :: vs[i] == qs[i].Value()
  {
    if qs == [] then [] else [qs[0].Value()] + Questions(qs[1..])
  }

  function Values(rrs: seq<ResourceRecord>): (vs: seq<RR>)
    reads rrs`mName, rrs`mType, rrs`mClass, rrs`mTtl, rrs`mRData
    ensures |vs| == |rrs| && forall i | 0 <= i < |rrs| :: vs[i] == rrs[i].Value()
  {
    if rrs == [] then [] else [rrs[0].Value()] + Values(rrs[1..])
  }

  // ---------- where encoding succeeds ----------

  /** There is room for what `spec` writes; if it closes with RDATA it must not end exactly at the end
      of the buffer, because the cursor cannot be set back there. */
  predicate Fits(spec: Result<seq<byte>>, closesWithRData: bool, capacity: nat) {
    spec.Ok? && if closesWithRData then |spec.value| < capacity else |spec.value| <= capacity
  }

  predicate ClosesWithRData(rrs: seq<RR>) {
    rrs != [] && rrs[|rrs| - 1].rdata.Some?
  }

  /** Encoding a record into a buffer of this capacity; why it throws is not kept. */
  function AppendRecordInto(P: seq<byte>, rr: RR, capacity: nat): (r: Result<seq<byte>>)
    ensures r.Ok? ==> P <= r.value && |r.value| <= capacity
  {
    if EncodesInto(P, rr, capacity) then AppendRecord(P, rr) else Throw(BehindBuffer)
  }

  /** Encoding records one after another. */
  function AppendRecordsInto(P: seq<byte>, rrs: seq<RR>, capacity: nat): (r: Result<seq<byte>>)
    ensures r.Ok? ==> P <= r.value && (|P| <= capacity ==> |r.value| <= capacity)
    decreases |rrs|
  {
    if rrs == [] then Ok(P)
    else
      var P1 :- AppendRecordInto(P, rrs[0], capacity);
      AppendRecordsInto(P1, rrs[1..], capacity)
  }

  /** Only the last record of a section can come too close to the end of the buffer. */
  lemma {:induction false} RecordsFit(P: seq<byte>, rrs: seq<RR>, capacity: nat)
    requires |P| <= capacity
    ensures AppendRecordsInto(P, rrs, capacity) ==
      if Fits(AppendRecords(P, rrs), ClosesWithRData(rrs), capacity) then AppendRecords(P, rrs)
      else Throw(BehindBuffer)
    decreases |rrs|
  {
    hide AppendRecord;
    if rrs != [] && EncodesInto(P, rrs[0], capacity) {
      RecordsFit(AppendRecord(P, rrs[0]).value, rrs[1..], capacity);
    }
  }

  function ThreeSections(P: seq<byte>, x: seq<RR>, y: seq<RR>, z: seq<RR>): Result<seq<byte>> {
    var P2 :- AppendRecords(P, x);
    var P3 :- AppendRecords(P2, y);
    AppendRecords(P3, z)
  }

  function ThreeSectionsInto(P: seq<byte>, x: seq<RR>, y: seq<RR>, z: seq<RR>, capacity: nat): (r: Result<seq<byte>>)
    ensures r.Ok? ==> P <= r.value && (|P| <= capacity ==> |r.value| <= capacity)
  {
    var P2 :- AppendRecordsInto(P, x, capacity);
    var P3 :- AppendRecordsInto(P2, y, capacity);
    AppendRecordsInto(P3, z, capacity)
  }

  /** Encoding a whole message into a buffer of this capacity, one section after another. */
  function AppendMessageInto(m: Msg, capacity: nat): (r: Result<seq<byte>>)
    ensures r.Ok? ==> |r.value| <= capacity
  {
    var P1 :- AppendQuestions(HeaderOctets(m), m.queries);
    if |P1| > capacity then Throw(BehindBuffer)
    else ThreeSectionsInto(P1, m.answers, m.authorities, m.additional, capacity)
  }

  /** A message can be encoded exactly when it fits and, if its last record has RDATA, an octet is left. */
  lemma MessageFits(m: Msg, capacity: nat)
    ensures AppendMessageInto(m, capacity).Ok? <==>
      Fits(AppendMessage(m), ClosesWithRData(m.answers + m.authorities + m.additional), capacity)
    ensures AppendMessageInto(m, capacity).Ok? ==> AppendMessageInto(m, capacity) == AppendMessage(m)
  {
    hide AppendRecords, AppendRecordsInto, AppendQuestions, HeaderOctets;
    var r1 := AppendQuestions(HeaderOctets(m), m.queries);
    if r1.Ok? && |r1.value| <= capacity {
      SectionsFit(r1.value, m.answers, m.authorities, m.additional, capacity);
    }
  }

  lemma SectionsFit(P: seq<byte>, x: seq<RR>, y: seq<RR>, z: seq<RR>, capacity: nat)
    requires |P| <= capacity
    ensures ThreeSectionsInto(P, x, y, z, capacity) ==
      if Fits(ThreeSections(P, x, y, z), ClosesWithRData(x + y + z), capacity) then ThreeSections(P, x, y, z)
      else Throw(BehindBuffer)
  {
    hide AppendRecord, AppendRecordsInto;
    assert z == [] && y == [] ==> x + y + z == x;
    assert z == [] ==> x + y + z == x + y;
    RecordsFit(P, x, capacity);
    var r1 := AppendRecordsInto(P, x, capacity);
    if r1.Ok? {
      RecordsFit(r1.value, y, capacity);
      var r2 := AppendRecordsInto(r1.value, y, capacity);
      if r2.Ok? {
        RecordsFit(r2.value, z, capacity);
      }
    }
  }

  lemma WrittenHeader(m: Msg, b: seq<byte>)
    requires AppendMessageInto(m, |b|).Ok? && AppendMessageInto(m, |b|).value <= b
    ensures HeaderLaidOut(b, m)
  {
    hide AppendQuestions, ThreeSectionsInto, HeaderOctets, HeaderLaidOut;
    var P := AppendQuestions(HeaderOctets(m), m.queries).value;
    assert HeaderOctets(m) <= P <= AppendMessageInto(m, |b|).value <= b;
    HeaderIsLaidOut(m, b);
  }

  /** What `Message::encode` leaves at the beginning of an array of any size is decoded to the same
      message under exactly the conditions of the round trip. */
  lemma EncodedComesBack(m: Msg, capacity: nat, rCode: uint)
    requires MsgOk(m) && MessageSafe(m) && AppendMessageInto(m, capacity).Ok?
    ensures var b := AppendMessageInto(m, capacity).value;
      DecodeMessage(b, rCode) == Parsed(m.(header := m.header.(rCode := rCode)), |b|) <==>
        && |b| <= MAX_MSG_LEN
        && RecordsReadable(m.answers) && RecordsReadable(m.authorities) && RecordsReadable(m.additional)
        && !MessageEndsInPointer(m)
  {
    hide AppendMessage, AppendMessageInto, DecodeMessage, MsgOk, MessageSafe, MessageEndsInPointer, RecordsReadable;
    MessageFits(m, capacity);
    MessageRoundTripExact(AppendMessage(m).value, m, rCode);
  }

  // ---------- sections ----------

  /** One more question behind octets that were put since `start` over `before`. */
  method EncodeQuestion(buffer: Buffer, q: QuerySection, ghost before: seq<byte>, ghost start: nat)
    returns (r: Result<()>)
    requires buffer.Valid() && start <= buffer.mPos && start <= |before| && buffer.Holds(buffer.Written(), before)
    requires buffer.Written()[..start] == before[..start]
    modifies buffer.mBuffer, buffer`mPos
    ensures buffer.Valid()
    ensures buffer.Appended(AppendQuestion(old(buffer.Written()), q.Value()), before, start, r)
    ensures r.Ok? ==>
      && start <= buffer.mPos
      && buffer.Written() == AppendQuestion(old(buffer.Written()), q.Value()).value
      && buffer.Holds(buffer.Written(), before) && buffer.Written()[..start] == before[..start]
    ensures NameError(q.mQName).Some? ==> r == Throw(NameError(q.mQName).value)
  {
    hide AppendQuestion, NameError;
    ghost var W, mid := buffer.Written(), buffer.mBuffer[..];
    r := q.Encode(buffer);
    buffer.AppendedOver(AppendQuestion(W, q.Value()), W, before, mid, start, r);
  }

  method EncodeQuestions(buffer: Buffer, qs: seq<QuerySection>) returns (r: Result<()>)
    requires buffer.Valid()
    modifies buffer.mBuffer, buffer`mPos
    ensures buffer.Valid()
    ensures buffer.Appended(AppendQuestions(old(buffer.Written()), Questions(qs)),
                            old(buffer.mBuffer[..]), old(buffer.mPos), r)
    ensures qs != [] && NameError(qs[0].mQName).Some? ==> r == Throw(NameError(qs[0].mQName).value)
  {
    hide AppendQuestion, AppendQuestions, Questions, NameError, Buffer.Holds;
    ghost var before, start, vs := buffer.mBuffer[..], buffer.mPos, Questions(qs);
    ghost var spec := AppendQuestions(buffer.Written(), vs);
    var i := 0;
    assert vs[0..] == vs;
    assert buffer.Holds(buffer.Written(), before) by {
      StartHolds(buffer);
    }
    while i < |qs|
      invariant i <= |qs| && buffer.Valid() && start <= buffer.mPos
      invariant buffer.Holds(buffer.Written(), before) && buffer.Written()[..start] == before[..start]
      invariant AppendQuestions(buffer.Written(), vs[i..]) == spec
      invariant i > 0 ==> NameError(qs[0].mQName).None?
    {
      QuestionsNext(buffer.Written(), vs, i);
      r := EncodeQuestion(buffer, qs[i], before, start);
      if r.Throw? {
        return;
      }
      i := i + 1;
    }
    NoQuestions(buffer.Written(), vs[i..]);
    return Ok(());
  }

  lemma NoQuestions(P: seq<byte>, vs: seq<Question>)
    requires vs == []
    ensures AppendQuestions(P, vs) == Ok(P)
  {
  }

  lemma QuestionsNext(P: seq<byte>, vs: seq<Question>, i: nat)
    requires i < |vs|
    ensures
      var spec := AppendQuestions(P, vs[i..]);
      match AppendQuestion(P, vs[i])
      case Throw(e) => spec == Throw(e)
      case Ok(Q) => spec == AppendQuestions(Q, vs[i + 1..]) && (spec.Ok? ==> Q <= spec.value)
  {
    hide AppendQuestion;
    assert vs[i..][0] == vs[i] && vs[i..][1..] == vs[i + 1..];
  }

  lemma StartHolds(buffer: Buffer)
    requires buffer.Valid()
    ensures buffer.Holds(buffer.Written(), buffer.mBuffer[..])
  {
  }

  method EncodeRecord(buffer: Buffer, rr: ResourceRecord) returns (r: Result<()>)
    requires buffer.Valid()
    modifies rr`mRDataSize, buffer.mBuffer, buffer`mPos
    ensures buffer.Valid()
    ensures buffer.Appended(AppendRecordInto(old(buffer.Written()), rr.Value(), buffer.mBuffer.Length),
                            old(buffer.mBuffer[..]), old(buffer.mPos), r)
  {
    hide AppendRecord;
    r := rr.Encode(buffer);
  }

  method EncodeRecords(buffer: Buffer, rrs: seq<ResourceRecord>) returns (r: Result<()>)
    requires buffer.Valid()
    modifies rrs`mRDataSize, buffer.mBuffer, buffer`mPos
    ensures buffer.Valid()
    ensures buffer.Appended(AppendRecordsInto(old(buffer.Written()), Values(rrs), buffer.mBuffer.Length),
                            old(buffer.mBuffer[..]), old(buffer.mPos), r)
  {
    hide AppendRecordInto, Values;
    ghost var before, start, vs := buffer.mBuffer[..], buffer.mPos, Values(rrs);
    ghost var spec := AppendRecordsInto(buffer.Written(), vs, buffer.mBuffer.Length);
    var i := 0;
    assert vs[0..] == vs;
    while i < |rrs|
      invariant i <= |rrs| && buffer.Valid() && start <= buffer.mPos
      invariant buffer.Holds(buffer.Written(), before) && buffer.Written()[..start] == before[..start]
      invariant AppendRecordsInto(buffer.Written(), vs[i..], buffer.mBuffer.Length) == spec
    {
      ghost var W, mid := buffer.Written(), buffer.mBuffer[..];
      r := EncodeRecord(buffer, rrs[i]);
      buffer.AppendedOver(AppendRecordInto(W, vs[i], buffer.mBuffer.Length), W, before, mid, start, r);
      assert vs[i..][0] == vs[i] && vs[i..][1..] == vs[i + 1..];
      if r.Throw? {
        return;
      }
      i := i + 1;
    }
    return Ok(());
  }

  method ReadQuestion(buffer: Buffer) returns (r: Result<QuerySection>)
    requires buffer.Valid() && buffer.mLinkPos == []
    modifies buffer`mPos, buffer`mLinkPos
    ensures buffer.Valid() && (r.Ok? ==> buffer.mLinkPos == [])
    ensures
      match DecodeQuestion(buffer.mBuffer[..], old(buffer.mPos))
      case Failed(e) => r == Throw(e)
      case Parsed(q, next) => r.Ok? && buffer.mPos == next && fresh(r.value) && r.value.Value() == q
  {
    hide DecodeName;
    var qName :- buffer.GetDnsDomainName(true);
    var qType :- buffer.Get16Bits();
    var qClass :- buffer.Get16Bits();
    var qs := new QuerySection(qName);
    qs.mQType := qType;
    qs.mQClass := qClass;
    return Ok(qs);
  }

  method ReadQuestions(buffer: Buffer, count: nat) returns (list: seq<QuerySection>, r: Result<()>)
    requires buffer.Valid() && buffer.mLinkPos == []
    modifies buffer`mPos, buffer`mLinkPos
    ensures buffer.Valid() && (r.Ok? ==> buffer.mLinkPos == []) && fresh(list)
    ensures
      match DecodeQuestions(buffer.mBuffer[..], old(buffer.mPos), count)
      case Failed(e) => r == Throw(e)
      case Parsed(qs, next) => r == Ok(()) && buffer.mPos == next && Questions(list) == qs
  {
    hide DecodeQuestion, Questions;
    ghost var b := buffer.mBuffer[..];
    ghost var outcome := DecodeQuestions(b, buffer.mPos, count);
    list := [];
    NothingBefore(outcome);
    for i := 0 to count
      invariant buffer.Valid() && buffer.mLinkPos == [] && buffer.mBuffer[..] == b && fresh(list)
      invariant outcome == After(Questions(list), DecodeQuestions(b, buffer.mPos, count - i))
    {
      ghost var done, rest := Questions(list), DecodeQuestions(b, buffer.mPos, count - i);
      ghost var before := list;
      var q := ReadQuestion(buffer);
      if q.Throw? {
        return list, Throw(q.error);
      }
      list := list + [q.value];
      QuestionsStep(before, q.value);
      OneMoreBefore(done, q.value.Value(), DecodeQuestions(b, buffer.mPos, count - i - 1));
    }
    assert Questions(list) + [] == Questions(list);
    return list, Ok(());
  }

  method ReadRecord(buffer: Buffer, rr: ResourceRecord) returns (r: Result<()>)
    requires buffer.Valid() && buffer.mLinkPos == [] && rr.mRData == None
    modifies rr, buffer`mPos, buffer`mLinkPos
    ensures buffer.Valid() && (r.Ok? ==> buffer.mLinkPos == [])
    ensures
      match DecodeRecord(buffer.mBuffer[..], old(buffer.mPos))
      case Failed(e) => r == Throw(e)
      case Parsed(v, next) => r == Ok(()) && buffer.mPos == next && rr.Value() == v
  {
    hide DecodeRecord;
    r := rr.Decode(buffer);
  }

  method ReadRecords(buffer: Buffer, count: nat) returns (list: seq<ResourceRecord>, r: Result<()>)
    requires buffer.Valid() && buffer.mLinkPos == []
    modifies buffer`mPos, buffer`mLinkPos
    ensures buffer.Valid() && (r.Ok? ==> buffer.mLinkPos == []) && fresh(list)
    ensures
      match DecodeRecords(buffer.mBuffer[..], old(buffer.mPos), count)
      case Failed(e) => r == Throw(e)
      case Parsed(rrs, next) => r == Ok(()) && buffer.mPos == next && Values(list) == rrs
  {
    hide DecodeRecord, DecodeRecords, After, Values;
    ghost var b := buffer.mBuffer[..];
    ghost var outcome := DecodeRecords(b, buffer.mPos, count);
    list := [];
    NothingBefore(outcome);
    for i := 0 to count
      invariant buffer.Valid() && buffer.mLinkPos == [] && buffer.mBuffer[..] == b && fresh(list)
      invariant outcome == After(Values(list), DecodeRecords(b, buffer.mPos, count - i))
    {
      RecordsNext(b, buffer.mPos, count - i, Values(list));
      var rr := new ResourceRecord();
      ghost var before := list;
      list := list + [rr];
      r := ReadRecord(buffer, rr);
      if r.Throw? {
        return;
      }
      ValuesStep(before, rr);
    }
    RecordsDone(b, buffer.mPos, Values(list));
    return list, Ok(());
  }

  lemma RecordsNext(b: seq<byte>, pos: nat, n: nat, done: seq<RR>)
    requires pos <= |b| && n > 0
    ensures
      match DecodeRecord(b, pos)
      case Failed(e) => After(done, DecodeRecords(b, pos, n)) == Failed(e)
      case Parsed(v, p) => After(done, DecodeRecords(b, pos, n)) == After(done + [v], DecodeRecords(b, p, n - 1))
  {
    hide DecodeRecord;
    var r := DecodeRecord(b, pos);
    if r.Parsed? {
      OneMoreBefore(done, r.value, DecodeRecords(b, r.next, n - 1));
    }
  }

  lemma RecordsDone(b: seq<byte>, pos: nat, done: seq<RR>)
    requires pos <= |b|
    ensures After(done, DecodeRecords(b, pos, 0)) == Parsed(done, pos)
  {
    assert done + [] == done;
  }

  lemma QuestionsStep(qs: seq<QuerySection>, q: QuerySection)
    ensures Questions(qs + [q]) == Questions(qs) + [q.Value()]
  {
  }

  lemma ValuesStep(rrs: seq<ResourceRecord>, rr: ResourceRecord)
    ensures Values(rrs + [rr]) == Values(rrs) + [rr.Value()]
  {
  }

  lemma Regrouped<T>(p: seq<T>, a: seq<T>, b: seq<T>, c: seq<T>, d: seq<T>, e: seq<T>, f: seq<T>)
    ensures p + (a + b) + (c + d) + (e + f) == p + (a + b + (c + d + e + f))
  {
  }

  method ReadCounts(buff: Buffer) returns (r: Result<RawCounts>)
    requires buff.Valid()
    modifies buff`mPos
    ensures buff.Valid() && buff.Reads(DecodeCounts(buff.mBuffer[..], old(buff.mPos)), r)
  {
    var qdCount :- buff.Get16Bits();
    var anCount :- buff.Get16Bits();
    var nsCount :- buff.Get16Bits();
    var arCount :- buff.Get16Bits();
    return Ok(RawCounts(qdCount, anCount, nsCount, arCount));
  }

  // ---------- the message object ----------

  class Message {
    var mId: uint
    var mQr: uint
    var mOpCode: uint
    var mAA: uint
    var mTC: uint
    var mRD: uint
    var mRA: uint
    var mRCode: uint
    var mQueries: seq<QuerySection>
    var mAnswers: seq<ResourceRecord>
    var mAuthorities: seq<ResourceRecord>
    var mAdditional: seq<ResourceRecord>

    function HeaderFields(): Header
      reads this
    {
      Header(mId, mQr, mOpCode, mAA, mTC, mRD, mRA, mRCode)
    }

    /** What the message says, whatever objects it is made of. */
    function Value(): Msg
      reads this, mQueries`mQName, mQueries`mQType, mQueries`mQClass
      reads mAnswers`mName, mAnswers`mType, mAnswers`mClass, mAnswers`mTtl, mAnswers`mRData
      reads mAuthorities`mName, mAuthorities`mType, mAuthorities`mClass, mAuthorities`mTtl, mAuthorities`mRData
      reads mAdditional`mName, mAdditional`mType, mAdditional`mClass, mAdditional`mTtl, mAdditional`mRData
    {
      Msg(HeaderFields(), Questions(mQueries), Values(mAnswers), Values(mAuthorities), Values(mAdditional))
    }

    /** Why the first question cannot be written, if there is one and it cannot. */
    function FirstNameError(): Option<Error>
      reads this`mQueries, mQueries`mQName
    {
      if mQueries == [] then None else NameError(mQueries[0].mQName)
    }

    constructor ()
      ensures Value() == Msg(Header(0, 0, 0, 0, 0, 0, 0, 0), [], [], [], [])
    {
      mId, mQr, mOpCode, mAA, mTC, mRD, mRA, mRCode := 0, 0, 0, 0, 0, 0, 0, 0;
      mQueries, mAnswers, mAuthorities, mAdditional := [], [], [], [];
    }

    /** On success the message is the one in the octets; RCODE stays what it was. */
    method Decode(buffer: array<byte>) returns (r: Result<()>)
      modifies this
      ensures r.Ok? <==> exists m :: MessageStands(buffer[..], m)
      ensures r.Ok? ==> MessageStands(buffer[..], Value()) && mRCode == old(mRCode)
      ensures
        match DecodeMessage(buffer[..], old(mRCode))
        case Failed(e) => r == Throw(e)
        case Parsed(m, _) => r == Ok(()) && Value() == m
      ensures buffer.Length > MAX_MSG_LEN ==> HeaderFields() == old(HeaderFields())
    {
      hide DecodeQuestions, DecodeSections, Questions, Values, MessageStands;
      MessageAccepted(buffer[..], mRCode);
      if buffer.Length > MAX_MSG_LEN {
        return Throw(MessageTooLong);
      }
      var buff := new Buffer(buffer);
      mQueries, mAnswers, mAuthorities, mAdditional := [], [], [], [];
      var h :- ReadHeader(buff);
      r := ReadLists(buff, h.counts);
      if r.Throw? {
        return;
      }
      if buff.mPos != buff.mBuffer.Length {
        return Throw(MessageNotEmpty);
      }
      return Ok(());
    }

    /** Reads the header into the fields, and returns what it says about the sections. */
    method ReadHeader(buff: Buffer) returns (r: Result<RawHeader>)
      requires buff.Valid() && buff.mPos == 0
      modifies this`mId, this`mQr, this`mOpCode, this`mAA, this`mTC, this`mRD, this`mRA, buff`mPos
      ensures buff.Valid() && buff.Reads(DecodeHeader(buff.mBuffer[..]), r)
      ensures r.Ok? ==> HeaderFields() == Unpack(r.value.id, r.value.fields, mRCode)
    {
      hide DecodeCounts;
      mId :- buff.Get16Bits();
      var fields :- buff.Get16Bits();
      mQr, mOpCode, mAA := fields / 0x8000 % 2, fields / 0x800 % 16, fields / 0x400 % 2;
      mTC, mRD, mRA := fields / 0x200 % 2, fields / 0x100 % 2, fields / 0x80 % 2;
      var counts :- ReadCounts(buff);
      return Ok(RawHeader(mId, fields, counts));
    }

    /** The questions and the three sections of records. */
    method ReadLists(buff: Buffer, c: RawCounts) returns (r: Result<()>)
      requires buff.Valid() && buff.mLinkPos == []
      modifies this`mQueries, this`mAnswers, this`mAuthorities, this`mAdditional, buff`mPos, buff`mLinkPos
      ensures buff.Valid()
      ensures
        match DecodeQuestions(buff.mBuffer[..], old(buff.mPos), c.qd)
        case Failed(e) => r == Throw(e)
        case Parsed(qs, p) =>
          match DecodeSections(buff.mBuffer[..], p, c)
          case Failed(e) => r == Throw(e)
          case Parsed(s, next) =>
            && r == Ok(()) && buff.mPos == next && Questions(mQueries) == qs
            && Values(mAnswers) == s.0 && Values(mAuthorities) == s.1 && Values(mAdditional) == s.2
      ensures r.Ok? ==> fresh(mQueries) && fresh(mAnswers) && fresh(mAuthorities) && fresh(mAdditional)
    {
      hide DecodeQuestions, DecodeSections, Questions, Values;
      mQueries, r := ReadQuestions(buff, c.qd);
      if r.Throw? {
        return;
      }
      r := ReadSections(buff, c);
    }

    method ReadSections(buff: Buffer, c: RawCounts) returns (r: Result<()>)
      requires buff.Valid() && buff.mLinkPos == []
      modifies this`mAnswers, this`mAuthorities, this`mAdditional, buff`mPos, buff`mLinkPos
      ensures buff.Valid()
      ensures
        match DecodeSections(buff.mBuffer[..], old(buff.mPos), c)
        case Failed(e) => r == Throw(e)
        case Parsed(s, next) =>
          && r == Ok(()) && buff.mPos == next
          && Values(mAnswers) == s.0 && Values(mAuthorities) == s.1 && Values(mAdditional) == s.2
      ensures r.Ok? ==> fresh(mAnswers) && fresh(mAuthorities) && fresh(mAdditional)
    {
      hide DecodeRecords, Values;
      mAnswers, r := ReadRecords(buff, c.an);
      if r.Throw? {
        return;
      }
      mAuthorities, r := ReadRecords(buff, c.ns);
      if r.Throw? {
        return;
      }
      mAdditional, r := ReadRecords(buff, c.ar);
    }

    /** Encoding succeeds exactly when `AppendMessageInto` does, and then the array begins with its octets. */
    method Encode(buffer: array<byte>) returns (validSize: nat, r: Result<()>)
      modifies buffer, mAnswers`mRDataSize, mAuthorities`mRDataSize, mAdditional`mRDataSize
      ensures Value() == old(Value())
      ensures r.Ok? <==> AppendMessageInto(Value(), buffer.Length).Ok?
      ensures r.Ok? ==>
        var Q := AppendMessageInto(Value(), buffer.Length).value;
        validSize == |Q| <= buffer.Length && buffer[..] == Q + old(buffer[validSize..])
      ensures r.Ok? ==> HeaderLaidOut(buffer[..], Value())
      ensures r.Throw? ==> validSize == 0
      ensures buffer.Length >= 12 && FirstNameError().Some? ==> r == Throw(FirstNameError().value)
    {
      hide AppendMessageInto, Value, FirstNameError, HeaderLaidOut;
      validSize := 0;
      var buff := new Buffer(buffer);
      ghost var m := Value();
      r := EncodeInto(buff);
      if r.Ok? {
        validSize := buff.mPos;
        WrittenHeader(m, buffer[..]);
      }
    }

    method EncodeInto(buff: Buffer) returns (r: Result<()>)
      requires buff.Valid() && buff.mPos == 0
      modifies buff.mBuffer, buff`mPos, mAnswers`mRDataSize, mAuthorities`mRDataSize, mAdditional`mRDataSize
      ensures buff.Valid() && Value() == old(Value())
      ensures buff.Appended(AppendMessageInto(Value(), buff.mBuffer.Length), old(buff.mBuffer[..]), 0, r)
      ensures buff.mBuffer.Length >= 12 && FirstNameError().Some? ==> r == Throw(FirstNameError().value)
    {
      hide AppendQuestions, ThreeSectionsInto, HeaderOctets, FirstNameError, Value;
      ghost var before, m := buff.mBuffer[..], Value();
      r := EncodeFront(buff);
      if r.Throw? {
        return;
      }
      ghost var W, mid := buff.Written(), buff.mBuffer[..];
      r := EncodeSections(buff);
      buff.AppendedOver(ThreeSectionsInto(W, m.answers, m.authorities, m.additional, buff.mBuffer.Length),
                        W, before, mid, 0, r);
    }

    /** Header and questions. */
    method EncodeFront(buff: Buffer) returns (r: Result<()>)
      requires buff.Valid() && buff.mPos == 0
      modifies buff.mBuffer, buff`mPos
      ensures buff.Valid()
      ensures Value() == old(Value()) && FirstNameError() == old(FirstNameError())
      ensures buff.Appended(AppendQuestions(HeaderOctets(Value()), Value().queries), old(buff.mBuffer[..]), 0, r)
      ensures buff.mBuffer.Length >= 12 && FirstNameError().Some? ==> r == Throw(FirstNameError().value)
    {
      hide AppendQuestions, Questions, Values, HeaderOctets, NameError;
      ghost var before, H := buff.mBuffer[..], HeaderOctets(Value());
      r := EncodeHeader(buff);
      if r.Throw? {
        return;
      }
      ghost var W, mid := buff.Written(), buff.mBuffer[..];
      assert W == H;
      r := EncodeQuestions(buff, mQueries);
      buff.AppendedOver(AppendQuestions(W, Questions(mQueries)), W, before, mid, 0, r);
    }

    method EncodeHeader(buff: Buffer) returns (r: Result<()>)
      requires buff.Valid()
      modifies buff.mBuffer, buff`mPos
      ensures buff.Valid()
      ensures buff.Appended(Ok(old(buff.Written()) + HeaderOctets(Value())),
                            old(buff.mBuffer[..]), old(buff.mPos), r)
    {
      hide U16;
      ghost var before, start, P, m := buff.mBuffer[..], buff.mPos, buff.Written(), Value();
      var fields := mQr % 2 * 0x8000;
      fields := fields + mOpCode % 16 * 0x800;
      fields := fields + mAA % 2 * 0x400;
      fields := fields + mTC % 2 * 0x200;
      fields := fields + mRD % 2 * 0x100;
      fields := fields + mRA % 2 * 0x80;
      fields := fields + mRCode % 16;
      r := EncodeTwoNumbers(buff, mId, fields);
      if r.Throw? {
        return;
      }
      ghost var W, mid := buff.Written(), buff.mBuffer[..];
      r := EncodeTwoNumbers(buff, |mQueries|, |mAnswers|);
      ghost var counts := U16(|mQueries|) + U16(|mAnswers|);
      buff.AppendedOver(Ok(W + counts), W, before, mid, start, r);
      if r.Throw? {
        return;
      }
      W, mid := buff.Written(), buff.mBuffer[..];
      r := EncodeTwoNumbers(buff, |mAuthorities|, |mAdditional|);
      counts := U16(|mAuthorities|) + U16(|mAdditional|);
      buff.AppendedOver(Ok(W + counts), W, before, mid, start, r);
      Regrouped(P, U16(m.header.id), U16(Flags(m.header)), U16(|m.queries|), U16(|m.answers|),
                U16(|m.authorities|), U16(|m.additional|));
    }

    method EncodeSections(buff: Buffer) returns (r: Result<()>)
      requires buff.Valid()
      modifies buff.mBuffer, buff`mPos, mAnswers`mRDataSize, mAuthorities`mRDataSize, mAdditional`mRDataSize
      ensures buff.Valid()
      ensures Value() == old(Value()) && FirstNameError() == old(FirstNameError())
      ensures buff.Appended(
        ThreeSectionsInto(old(buff.Written()), Value().answers, Value().authorities, Value().additional,
                          buff.mBuffer.Length),
        old(buff.mBuffer[..]), old(buff.mPos), r)
    {
      hide AppendRecordsInto, Values, Value, FirstNameError;
      ghost var before, start, cap, m := buff.mBuffer[..], buff.mPos, buff.mBuffer.Length, Value();
      Parts();
      r := EncodeSection(buff, mAnswers);
      if r.Throw? {
        return;
      }
      ghost var W, mid := buff.Written(), buff.mBuffer[..];
      Parts();
      r := EncodeSection(buff, mAuthorities);
      buff.AppendedOver(AppendRecordsInto(W, m.authorities, cap), W, before, mid, start, r);
      if r.Throw? {
        return;
      }
      W, mid := buff.Written(), buff.mBuffer[..];
      Parts();
      r := EncodeSection(buff, mAdditional);
      buff.AppendedOver(AppendRecordsInto(W, m.additional, cap), W, before, mid, start, r);
    }

    lemma Parts()
      ensures Value().answers == Values(mAnswers) && Value().authorities == Values(mAuthorities)
      ensures Value().additional == Values(mAdditional)
    {
    }

    method EncodeSection(buff: Buffer, rrs: seq<ResourceRecord>) returns (r: Result<()>)
      requires buff.Valid()
      modifies buff.mBuffer, buff`mPos, rrs`mRDataSize
      ensures buff.Valid() && Value() == old(Value()) && FirstNameError() == old(FirstNameError())
      ensures buff.Appended(AppendRecordsInto(old(buff.Written()), old(Values(rrs)), buff.mBuffer.Length),
                            old(buff.mBuffer[..]), old(buff.mPos), r)
    {
      hide AppendRecordsInto, Values, Questions, FirstNameError;
      r := EncodeRecords(buff, rrs);
    }
  }
}
