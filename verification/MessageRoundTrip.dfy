/** Encoding and decoding whole messages. */
module MessageRoundTrip {
  import opened Octets
  import opened Names
  import opened NameRoundTrip
  import opened Records
  import opened RecordRoundTrip
  import opened BackPatching
  import opened Messages

  // ---------- header ----------

  lemma FlagDigits(qr: nat, opCode: nat, aa: nat, tc: nat, rd: nat, ra: nat, rCode: nat, f: nat)
    requires qr < 2 && opCode < 16 && aa < 2 && tc < 2 && rd < 2 && ra < 2 && rCode < 16
    requires f == qr * 0x8000 + opCode * 0x800 + aa * 0x400 + tc * 0x200 + rd * 0x100 + ra * 0x80 + rCode
    ensures f / 0x8000 == qr && f / 0x800 == qr * 16 + opCode && f / 0x400 == qr * 0x20 + opCode * 2 + aa
    ensures f / 0x200 == qr * 0x40 + opCode * 4 + aa * 2 + tc
    ensures f / 0x100 == qr * 0x80 + opCode * 8 + aa * 4 + tc * 2 + rd
    ensures f / 0x80 == qr * 0x100 + opCode * 0x10 + aa * 8 + tc * 4 + rd * 2 + ra
  {
  }

  lemma FlagBits(qr: nat, opCode: nat, aa: nat, tc: nat, rd: nat, ra: nat, rCode: nat, f: nat)
    requires qr < 2 && opCode < 16 && aa < 2 && tc < 2 && rd < 2 && ra < 2 && rCode < 16
    requires f == qr * 0x8000 + opCode * 0x800 + aa * 0x400 + tc * 0x200 + rd * 0x100 + ra * 0x80 + rCode
    ensures f / 0x8000 % 2 == qr && f / 0x800 % 16 == opCode && f / 0x400 % 2 == aa
    ensures f / 0x200 % 2 == tc && f / 0x100 % 2 == rd && f / 0x80 % 2 == ra
  {
    FlagDigits(qr, opCode, aa, tc, rd, ra, rCode, f);
  }

  lemma FlagsValue(h: Header)
    requires HeaderOk(h)
    ensures Flags(h) == h.qr * 0x8000 + h.opCode * 0x800 + h.aa * 0x400 + h.tc * 0x200
                        + h.rd * 0x100 + h.ra * 0x80 + h.rCode
  {
    InRange(h.qr, 2);
    InRange(h.opCode, 16);
    InRange(h.aa, 2);
    InRange(h.tc, 2);
    InRange(h.rd, 2);
    InRange(h.ra, 2);
    InRange(h.rCode, 16);
  }

  lemma InRange(x: nat, n: nat)
    requires x < n
    ensures x % n == x
  {
  }

  lemma FlagsUnpack(h: Header)
    requires HeaderOk(h)
    ensures Unpack(h.id, Flags(h), h.rCode) == h
  {
    FlagsValue(h);
    FlagBits(h.qr, h.opCode, h.aa, h.tc, h.rd, h.ra, h.rCode, Flags(h));
  }

  lemma CountsComeBack(b: seq<byte>, p: nat, qd: uint, an: uint, ns: uint, ar: uint)
    requires At(b, p, U16(qd) + U16(an) + U16(ns) + U16(ar))
    requires qd < 0x1_0000 && an < 0x1_0000 && ns < 0x1_0000 && ar < 0x1_0000
    ensures DecodeCounts(b, p) == Parsed(RawCounts(qd, an, ns, ar), p + 8)
  {
    AtConcat(b, p, U16(qd) + U16(an) + U16(ns), U16(ar));
    AtConcat(b, p, U16(qd) + U16(an), U16(ns));
    AtConcat(b, p, U16(qd), U16(an));
    Field16(b, p, qd);
    Field16(b, p + 2, an);
    Field16(b, p + 4, ns);
    Field16(b, p + 6, ar);
  }

  predicate CountsFit(m: Msg) {
    |m.queries| < 0x1_0000 && |m.answers| < 0x1_0000 && |m.authorities| < 0x1_0000 && |m.additional| < 0x1_0000
  }

  function CountsOf(m: Msg): RawCounts
    requires CountsFit(m)
  {
    RawCounts(|m.queries|, |m.answers|, |m.authorities|, |m.additional|)
  }

  lemma HeaderComesBack(b: seq<byte>, m: Msg)
    requires HeaderOctets(m) <= b && m.header.id < 0x1_0000 && CountsFit(m)
    ensures DecodeHeader(b) == Parsed(RawHeader(m.header.id, Flags(m.header), CountsOf(m)), 12)
  {
    var x, y, z := U16(m.header.id), U16(Flags(m.header)), Counts(m);
    assert b[0..12] == x + y + z;
    AtConcat(b, 0, x + y, z);
    AtConcat(b, 0, x, y);
    Field16(b, 0, m.header.id);
    Field16(b, 2, Flags(m.header));
    CountsComeBack(b, 4, |m.queries|, |m.answers|, |m.authorities|, |m.additional|);
  }

  // ---------- questions ----------

  lemma QuestionComesBack(b: seq<byte>, P: seq<byte>, q: Question)
    requires QuestionOk(q) && AppendQuestion(P, q).value <= b && |AppendQuestion(P, q).value| <= 0x4000
    ensures DecodeQuestion(b, |P|) == Parsed(q, |AppendQuestion(P, q).value|)
  {
    var P1, Z := AppendName(P, q.qName, true).value, AppendQuestion(P, q).value;
    var w := U16(q.qType) + U16(q.qClass);
    assert Z == P1 + w && P1 <= b;
    assert b[|P1|..|Z|] == Z[|P1|..] == w;
    QuestionFixed(b, |P1|, q);
    NameReadBack(b, P, q.qName);
  }

  lemma QuestionFixed(b: seq<byte>, p: nat, q: Question)
    requires At(b, p, U16(q.qType) + U16(q.qClass)) && q.qType < 0x1_0000 && q.qClass < 0x1_0000
    ensures Get16(b, p) == Parsed(q.qType, p + 2) && Get16(b, p + 2) == Parsed(q.qClass, p + 4)
  {
    AtConcat(b, p, U16(q.qType), U16(q.qClass));
    Field16(b, p, q.qType);
    Field16(b, p + 2, q.qClass);
  }

  lemma {:induction false} QuestionsComeBack(b: seq<byte>, P: seq<byte>, qs: seq<Question>)
    requires QuestionsOk(qs) && AppendQuestions(P, qs).value <= b && |AppendQuestions(P, qs).value| <= 0x4000
    ensures DecodeQuestions(b, |P|, |qs|) == Parsed(qs, |AppendQuestions(P, qs).value|)
    decreases |qs|
  {
    if qs != [] {
      QuestionComesBack(b, P, qs[0]);
      QuestionsComeBack(b, AppendQuestion(P, qs[0]).value, qs[1..]);
      assert qs == [qs[0]] + qs[1..];
    }
  }

  // ---------- records ----------

  predicate RecordsIntact(b: seq<byte>, P: seq<byte>, rrs: seq<RR>)
    requires RecordsOk(rrs)
    decreases |rrs|
  {
    rrs != [] ==>
      RecordIntact(b, P, rrs[0]) && RecordsIntact(b, AppendRecord(P, rrs[0]).value, rrs[1..])
  }

  predicate FaithfulRecords(r: Parsed<seq<RR>>, intact: bool, rrs: seq<RR>, end: nat) {
    if intact then r == Parsed(rrs, end) else r.Failed? || r.value != rrs
  }

  predicate RecordsReadBack(b: seq<byte>, P: seq<byte>, rrs: seq<RR>)
    requires RecordsOk(rrs) && |P| <= |b|
  {
    FaithfulRecords(DecodeRecords(b, |P|, |rrs|), RecordsIntact(b, P, rrs), rrs, |AppendRecords(P, rrs).value|)
  }

  lemma {:induction false} RecordsComeBack(b: seq<byte>, P: seq<byte>, rrs: seq<RR>)
    requires RecordsOk(rrs) && AppendRecords(P, rrs).value <= b && |AppendRecords(P, rrs).value| <= 0x4000
    ensures RecordsReadBack(b, P, rrs)
    decreases |rrs|
  {
    if rrs != [] {
      var P1 := AppendRecord(P, rrs[0]).value;
      RecordsComeBack(b, P1, rrs[1..]);
      RecordComesBack(b, P, rrs[0]);
      RecordsStep(b, P, P1, rrs);
    }
  }

  lemma RecordsStep(b: seq<byte>, P: seq<byte>, P1: seq<byte>, rrs: seq<RR>)
    requires RecordsOk(rrs) && rrs != [] && AppendRecord(P, rrs[0]) == Ok(P1) && |P| <= |b| && |P1| <= |b|
    requires RecordReadBack(b, P, rrs[0]) && RecordsReadBack(b, P1, rrs[1..])
    ensures RecordsReadBack(b, P, rrs)
  {
    var r := DecodeRecord(b, |P|);
    if r.Parsed? {
      var s := DecodeRecords(b, r.next, |rrs| - 1);
      if s.Parsed? {
        ConsEqual(r.value, s.value, rrs);
      }
    }
  }

  // ---------- messages ----------

  predicate SectionsIntact(b: seq<byte>, P: seq<byte>, x: seq<RR>, y: seq<RR>, z: seq<RR>)
    requires RecordsOk(x) && RecordsOk(y) && RecordsOk(z)
  {
    var P1 := AppendRecords(P, x).value;
    var P2 := AppendRecords(P1, y).value;
    RecordsIntact(b, P, x) && RecordsIntact(b, P1, y) && RecordsIntact(b, P2, z)
  }

  predicate FaithfulSections(r: Parsed<(seq<RR>, seq<RR>, seq<RR>)>, intact: bool,
                             s: (seq<RR>, seq<RR>, seq<RR>), end: nat)
  {
    if intact then r == Parsed(s, end) else r.Failed? || r.value != s
  }

  lemma SectionsComeBack(b: seq<byte>, P: seq<byte>, x: seq<RR>, y: seq<RR>, z: seq<RR>,
                         P1: seq<byte>, P2: seq<byte>, P3: seq<byte>, c: RawCounts)
    requires RecordsOk(x) && RecordsOk(y) && RecordsOk(z)
    requires AppendRecords(P, x) == Ok(P1) && AppendRecords(P1, y) == Ok(P2) && AppendRecords(P2, z) == Ok(P3)
    requires P3 <= b && |P3| <= 0x4000 && c.an == |x| && c.ns == |y| && c.ar == |z|
    ensures FaithfulSections(DecodeSections(b, |P|, c), SectionsIntact(b, P, x, y, z), (x, y, z), |P3|)
  {
    hide DecodeRecords, DecodeSections, RecordOk;
    RecordsComeBack(b, P, x);
    RecordsComeBack(b, P1, y);
    RecordsComeBack(b, P2, z);
    SectionsFields(b, |P|, |P1|, |P2|, |P3|, x, y, z,
      RecordsIntact(b, P, x), RecordsIntact(b, P1, y), RecordsIntact(b, P2, z), c);
  }

  lemma SectionsFields(b: seq<byte>, p: nat, p1: nat, p2: nat, p3: nat, x: seq<RR>, y: seq<RR>, z: seq<RR>,
                       i: bool, j: bool, k: bool, c: RawCounts)
    requires p <= |b| && p1 <= |b| && p2 <= |b| && c.an == |x| && c.ns == |y| && c.ar == |z|
    requires FaithfulRecords(DecodeRecords(b, p, |x|), i, x, p1)
    requires FaithfulRecords(DecodeRecords(b, p1, |y|), j, y, p2)
    requires FaithfulRecords(DecodeRecords(b, p2, |z|), k, z, p3)
    ensures FaithfulSections(DecodeSections(b, p, c), i && j && k, (x, y, z), p3)
  {
  }

  /** The buffer behind the questions, where the records begin. */
  function BehindQuestions(m: Msg): seq<byte>
    requires MsgOk(m)
  {
    AppendQuestions(HeaderOctets(m), m.queries).value
  }

  predicate MessageIntact(b: seq<byte>, m: Msg)
    requires MsgOk(m)
  {
    SectionsIntact(b, BehindQuestions(m), m.answers, m.authorities, m.additional)
  }

  /** What decoding the encoded message must give; RCODE stays what the message object held. */
  predicate MessageReadBack(b: seq<byte>, m: Msg, rCode: uint)
    requires MsgOk(m)
  {
    var r, m' := DecodeMessage(b, rCode), m.(header := m.header.(rCode := rCode));
    if MessageIntact(b, m) then r == Parsed(m', |b|) else r.Failed? || r.value != m'
  }

  lemma MessageComesBack(b: seq<byte>, m: Msg, rCode: uint)
    requires MsgOk(m) && AppendMessage(m) == Ok(b) && |b| <= MAX_MSG_LEN
    ensures MessageReadBack(b, m, rCode)
  {
    hide DecodeQuestions, DecodeSections, DecodeHeader, SectionsIntact, RecordOk, QuestionOk, HeaderOctets,
      Unpack, Flags;
    var P0 := BehindQuestions(m);
    var P1 := AppendRecords(P0, m.answers).value;
    var P2 := AppendRecords(P1, m.authorities).value;
    assert AppendRecords(P2, m.additional) == Ok(b);
    assert P2 <= b && P1 <= b && P0 <= b && HeaderOctets(m) <= b;
    HeaderComesBack(b, m);
    QuestionsComeBack(b, HeaderOctets(m), m.queries);
    SectionsComeBack(b, P0, m.answers, m.authorities, m.additional, P1, P2, b, CountsOf(m));
    UnpackKept(m.header, rCode);
  }

  lemma UnpackKept(h: Header, rCode: uint)
    requires HeaderOk(h)
    ensures Unpack(h.id, Flags(h), rCode) == h.(rCode := rCode)
  {
    FlagsUnpack(h);
  }

  // ---------- what a caller can check ----------

  /** Every record is safe to patch. */
  predicate RecordsSafe(P: seq<byte>, rrs: seq<RR>)
    requires RecordsOk(rrs)
    decreases |rrs|
  {
    rrs != [] ==> PatchSafe(P, rrs[0]) && RecordsSafe(AppendRecord(P, rrs[0]).value, rrs[1..])
  }

  predicate RecordsReadable(rrs: seq<RR>) {
    forall i | 0 <= i < |rrs| && rrs[i].rdata.Some? :: Readable(rrs[i].rdata.value)
  }

  /** The section closes with a compression pointer. */
  predicate SectionEndsInPointer(P: seq<byte>, rrs: seq<RR>)
    requires RecordsOk(rrs)
    decreases |rrs|
  {
    if rrs == [] then false
    else if |rrs| == 1 then RecordEndsInPointer(P, rrs[0])
    else SectionEndsInPointer(AppendRecord(P, rrs[0]).value, rrs[1..])
  }

  lemma {:induction false} SectionIntactExact(b: seq<byte>, P: seq<byte>, rrs: seq<RR>)
    requires RecordsOk(rrs) && RecordsSafe(P, rrs) && AppendRecords(P, rrs).value <= b
    ensures RecordsIntact(b, P, rrs) <==>
      RecordsReadable(rrs) && (SectionEndsInPointer(P, rrs) ==> |AppendRecords(P, rrs).value| < |b|)
    decreases |rrs|
  {
    if rrs != [] {
      var P1, tail := AppendRecord(P, rrs[0]).value, rrs[1..];
      PatchIsHarmless(b, P, rrs[0]);
      SectionIntactExact(b, P1, tail);
      ReadableStep(rrs);
      if |rrs| > 1 {
        assert |P1| < |AppendRecords(P1, tail).value|;
      }
    }
  }

  lemma ReadableStep(rrs: seq<RR>)
    requires rrs != []
    ensures RecordsReadable(rrs) <==>
      (rrs[0].rdata.Some? ==> Readable(rrs[0].rdata.value)) && RecordsReadable(rrs[1..])
  {
    if RecordsReadable(rrs[1..]) {
      forall i | 1 <= i < |rrs| && rrs[i].rdata.Some? ensures Readable(rrs[i].rdata.value) {
        assert rrs[i] == rrs[1..][i - 1];
      }
    }
  }

  predicate MessageSafe(m: Msg)
    requires MsgOk(m)
  {
    var P0 := BehindQuestions(m);
    var P1 := AppendRecords(P0, m.answers).value;
    var P2 := AppendRecords(P1, m.authorities).value;
    RecordsSafe(P0, m.answers) && RecordsSafe(P1, m.authorities) && RecordsSafe(P2, m.additional)
  }

  /** The last octets of the message are a compression pointer. */
  predicate MessageEndsInPointer(m: Msg)
    requires MsgOk(m)
  {
    var P0 := BehindQuestions(m);
    var P1 := AppendRecords(P0, m.answers).value;
    var P2 := AppendRecords(P1, m.authorities).value;
    if m.additional != [] then SectionEndsInPointer(P2, m.additional)
    else if m.authorities != [] then SectionEndsInPointer(P1, m.authorities)
    else SectionEndsInPointer(P0, m.answers)
  }

  lemma SectionsIntactExact(b: seq<byte>, P: seq<byte>, P1: seq<byte>, P2: seq<byte>,
                            x: seq<RR>, y: seq<RR>, z: seq<RR>)
    requires RecordsOk(x) && RecordsOk(y) && RecordsOk(z)
    requires AppendRecords(P, x) == Ok(P1) && AppendRecords(P1, y) == Ok(P2) && AppendRecords(P2, z) == Ok(b)
    requires RecordsSafe(P, x) && RecordsSafe(P1, y) && RecordsSafe(P2, z)
    ensures SectionsIntact(b, P, x, y, z) <==>
      && RecordsReadable(x) && RecordsReadable(y) && RecordsReadable(z)
      && !(if z != [] then SectionEndsInPointer(P2, z)
           else if y != [] then SectionEndsInPointer(P1, y) else SectionEndsInPointer(P, x))
  {
    assert P2 <= b && P1 <= b;
    SectionIntactExact(b, P, x);
    SectionIntactExact(b, P1, y);
    SectionIntactExact(b, P2, z);
  }

  lemma MessageIntactExact(b: seq<byte>, m: Msg)
    requires MsgOk(m) && MessageSafe(m) && AppendMessage(m) == Ok(b)
    ensures MessageIntact(b, m) <==>
      && RecordsReadable(m.answers) && RecordsReadable(m.authorities) && RecordsReadable(m.additional)
      && !MessageEndsInPointer(m)
  {
    var P0 := BehindQuestions(m);
    var P1 := AppendRecords(P0, m.answers).value;
    var P2 := AppendRecords(P1, m.authorities).value;
    SectionsIntactExact(b, P0, P1, P2, m.answers, m.authorities, m.additional);
  }

  /** Message round trip: decoding the encoded message restores the header fields, the questions and
      the three record lists in order, when and only when the message fits into 512 octets, every
      record is readable, and the message does not close with a compression pointer. */
  lemma MessageRoundTripExact(b: seq<byte>, m: Msg, rCode: uint)
    requires MsgOk(m) && MessageSafe(m) && AppendMessage(m) == Ok(b)
    ensures DecodeMessage(b, rCode) == Parsed(m.(header := m.header.(rCode := rCode)), |b|) <==>
      && |b| <= MAX_MSG_LEN
      && RecordsReadable(m.answers) && RecordsReadable(m.authorities) && RecordsReadable(m.additional)
      && !MessageEndsInPointer(m)
  {
    if |b| <= MAX_MSG_LEN {
      MessageComesBack(b, m, rCode);
      MessageIntactExact(b, m);
    }
  }
}
