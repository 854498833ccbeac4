/** Whole DNS messages: header, questions and three sections of records. */
module Messages {
  import opened Octets
  import opened Records

  const MAX_MSG_LEN := 512

  datatype Header = Header(
    id: uint, qr: uint, opCode: uint, aa: uint, tc: uint, rd: uint, ra: uint, rCode: uint)

  datatype Msg = Msg(
    header: Header, queries: seq<Question>, answers: seq<RR>, authorities: seq<RR>, additional: seq<RR>)

  // ---------- writing ----------

  /** The second 16 bits of the header. */
  function Flags(h: Header): (n: nat)
    ensures n < 0x1_0000
  {
    h.qr % 2 * 0x8000 + h.opCode % 16 * 0x800 + h.aa % 2 * 0x400 + h.tc % 2 * 0x200
    + h.rd % 2 * 0x100 + h.ra % 2 * 0x80 + h.rCode % 16
  }

  function Counts(m: Msg): seq<byte> {
    U16(|m.queries|) + U16(|m.answers|) + U16(|m.authorities|) + U16(|m.additional|)
  }

  function HeaderOctets(m: Msg): (w: seq<byte>)
    ensures |w| == 12
  {
    U16(m.header.id) + U16(Flags(m.header)) + Counts(m)
  }

  function AppendQuestions(P: seq<byte>, qs: seq<Question>): (r: Result<seq<byte>>)
    ensures r.Ok? ==> P <= r.value && |r.value| >= |P| + 5 * |qs|
    ensures QuestionsOk(qs) ==> r.Ok?
    decreases |qs|
  {
    if qs == [] then Ok(P)
    else
      var P1 :- AppendQuestion(P, qs[0]);
      AppendQuestions(P1, qs[1..])
  }

  function AppendRecords(P: seq<byte>, rrs: seq<RR>): (r: Result<seq<byte>>)
    ensures r.Ok? ==> P <= r.value && |r.value| >= |P| + 11 * |rrs|
    ensures RecordsOk(rrs) ==> r.Ok?
    decreases |rrs|
  {
    if rrs == [] then Ok(P)
    else
      var P1 :- AppendRecord(P, rrs[0]);
      AppendRecords(P1, rrs[1..])
  }

  /** The octets of `Message::encode`, as long as there is room. */
  function AppendMessage(m: Msg): (r: Result<seq<byte>>)
    ensures r.Ok? ==> |r.value| >= 12 + 5 * |m.queries| + 11 * (|m.answers| + |m.authorities| + |m.additional|)
    ensures MsgOk(m) ==> r.Ok?
  {
    var P1 :- AppendQuestions(HeaderOctets(m), m.queries);
    var P2 :- AppendRecords(P1, m.answers);
    var P3 :- AppendRecords(P2, m.authorities);
    AppendRecords(P3, m.additional)
  }

  // ---------- reading ----------

  datatype RawHeader = RawHeader(id: uint, fields: uint, counts: RawCounts)
  datatype RawCounts = RawCounts(qd: uint, an: uint, ns: uint, ar: uint)

  function DecodeCounts(b: seq<byte>, pos: nat): (r: Parsed<RawCounts>)
    ensures r.Parsed? ==> r.next == pos + 8 <= |b|
  {
    var (qd, p1) :- Get16(b, pos);
    var (an, p2) :- Get16(b, p1);
    var (ns, p3) :- Get16(b, p2);
    var (ar, p4) :- Get16(b, p3);
    Parsed(RawCounts(qd, an, ns, ar), p4)
  }

  function DecodeHeader(b: seq<byte>): (r: Parsed<RawHeader>)
    ensures r.Parsed? ==> r.next == 12 <= |b|
  {
    var (id, p1) :- Get16(b, 0);
    var (fields, p2) :- Get16(b, p1);
    var (counts, p3) :- DecodeCounts(b, p2);
    Parsed(RawHeader(id, fields, counts), p3)
  }

  /** The header fields that the decoder takes from the flags; RCODE is not among them. */
  function Unpack(id: uint, f: uint, rCode: uint): Header {
    Header(id, f / 0x8000 % 2, f / 0x800 % 16, f / 0x400 % 2, f / 0x200 % 2, f / 0x100 % 2, f / 0x80 % 2, rCode)
  }

  function DecodeQuestions(b: seq<byte>, pos: nat, n: nat): (r: Parsed<seq<Question>>)
    requires pos <= |b|
    ensures r.Parsed? ==> |r.value| == n && pos + 5 * n <= r.next <= |b|
    decreases n
  {
    if n == 0 then Parsed([], pos)
    else
      var (q, p) :- DecodeQuestion(b, pos);
      var (rest, e) :- DecodeQuestions(b, p, n - 1);
      Parsed([q] + rest, e)
  }

  function DecodeRecords(b: seq<byte>, pos: nat, n: nat): (r: Parsed<seq<RR>>)
    requires pos <= |b|
    ensures r.Parsed? ==> |r.value| == n && pos + 11 * n <= r.next <= |b|
    decreases n
  {
    if n == 0 then Parsed([], pos)
    else
      var (rr, p) :- DecodeRecord(b, pos);
      var (rest, e) :- DecodeRecords(b, p, n - 1);
      Parsed([rr] + rest, e)
  }

  /** The three record sections, one after another. */
  function DecodeSections(b: seq<byte>, pos: nat, c: RawCounts): (r: Parsed<(seq<RR>, seq<RR>, seq<RR>)>)
    requires pos <= |b|
    ensures r.Parsed? ==> pos + 11 * (c.an + c.ns + c.ar) <= r.next <= |b|
    ensures r.Parsed? ==> |r.value.0| == c.an && |r.value.1| == c.ns && |r.value.2| == c.ar
  {
    var (answers, p1) :- DecodeRecords(b, pos, c.an);
    var (authorities, p2) :- DecodeRecords(b, p1, c.ns);
    var (additional, p3) :- DecodeRecords(b, p2, c.ar);
    Parsed((answers, authorities, additional), p3)
  }

  /** `Message::decode`; `rCode` is what the message object held before. */
  function DecodeMessage(b: seq<byte>, rCode: uint): (r: Parsed<Msg>) {
    if |b| > MAX_MSG_LEN then Failed(MessageTooLong)
    else
      var (h, p1) :- DecodeHeader(b);
      var (queries, p2) :- DecodeQuestions(b, p1, h.counts.qd);
      var (sections, p3) :- DecodeSections(b, p2, h.counts);
      if p3 != |b| then Failed(MessageNotEmpty)
      else Parsed(Msg(Unpack(h.id, h.fields, rCode), queries, sections.0, sections.1, sections.2), p3)
  }

  // ---------- the domain ----------

  predicate QuestionsOk(qs: seq<Question>) {
    forall i | 0 <= i < |qs| :: QuestionOk(qs[i])
  }

  predicate RecordsOk(rrs: seq<RR>) {
    forall i | 0 <= i < |rrs| :: RecordOk(rrs[i])
  }

  /** The setters keep the flags in range; the ID has sixteen bits on the wire. */
  predicate HeaderOk(h: Header) {
    && h.id < 0x1_0000 && h.qr < 2 && h.opCode < 16 && h.aa < 2 && h.tc < 2 && h.rd < 2 && h.ra < 2
    && h.rCode < 16
  }

  predicate MsgOk(m: Msg) {
    && HeaderOk(m.header) && QuestionsOk(m.queries)
    && RecordsOk(m.answers) && RecordsOk(m.authorities) && RecordsOk(m.additional)
  }
}
