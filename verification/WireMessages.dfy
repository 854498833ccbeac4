/** What a message is, in terms of the octets of a buffer alone: that the decoder reads exactly that, and
    where the encoder puts the fields of the header (RFC 1035 section 4.1.1). */
module WireMessages {
  import opened Octets
  import opened Records
  import opened Messages
  import opened WireRecords

  // ---------- the header ----------

  /** ID and flags of the header, without RCODE. */
  predicate FlagsStand(b: seq<byte>, h: Header) {
    && |b| >= 12 && h.id == b[0] as int * 256 + b[1]
    && h.qr == b[2] / 128 && h.opCode == b[2] / 8 % 16 && h.aa == b[2] / 4 % 2 && h.tc == b[2] / 2 % 2
    && h.rd == b[2] % 2 && h.ra == b[3] / 128
  }

  /** How many questions and records the header announces. */
  predicate CountsStand(b: seq<byte>, m: Msg) {
    && |b| >= 12
    && |m.queries| == b[4] as int * 256 + b[5] && |m.answers| == b[6] as int * 256 + b[7]
    && |m.authorities| == b[8] as int * 256 + b[9] && |m.additional| == b[10] as int * 256 + b[11]
  }

  /** The header as it is written: numbers are cut to their width. */
  predicate HeaderLaidOut(b: seq<byte>, m: Msg) {
    var h := m.header;
    && |b| >= 12 && b[0] as int * 256 + b[1] == h.id % 65536
    && b[2] / 128 == h.qr % 2 && b[2] / 8 % 16 == h.opCode % 16 && b[2] / 4 % 2 == h.aa % 2
    && b[2] / 2 % 2 == h.tc % 2 && b[2] % 2 == h.rd % 2
    && b[3] / 128 == h.ra % 2 && b[3] / 16 % 8 == 0 && b[3] % 16 == h.rCode % 16
    && b[4] as int * 256 + b[5] == |m.queries| % 65536 && b[6] as int * 256 + b[7] == |m.answers| % 65536
    && b[8] as int * 256 + b[9] == |m.authorities| % 65536 && b[10] as int * 256 + b[11] == |m.additional| % 65536
  }

  lemma Bits(f: nat, x: nat, y: nat)
    requires f == x * 256 + y && x < 256 && y < 256
    ensures f / 0x8000 % 2 == x / 128 && f / 0x800 % 16 == x / 8 % 16 && f / 0x400 % 2 == x / 4 % 2
    ensures f / 0x200 % 2 == x / 2 % 2 && f / 0x100 % 2 == x % 2 && f / 0x80 % 2 == y / 128
  {
    assert f / 0x100 == x;
    assert f / 0x8000 == x / 128 && f / 0x800 == x / 8 && f / 0x400 == x / 4 && f / 0x200 == x / 2;
    assert f / 0x80 == 2 * x + y / 128;
  }

  /** The header of every accepted message. */
  lemma HeaderReadExactly(b: seq<byte>)
    ensures DecodeHeader(b).Parsed? <==> |b| >= 12
    ensures DecodeHeader(b).Parsed? ==>
      var h := DecodeHeader(b).value;
      && (forall rCode: uint :: FlagsStand(b, Unpack(h.id, h.fields, rCode)))
      && h.counts.qd == b[4] as int * 256 + b[5] && h.counts.an == b[6] as int * 256 + b[7]
      && h.counts.ns == b[8] as int * 256 + b[9] && h.counts.ar == b[10] as int * 256 + b[11]
  {
    if |b| >= 12 {
      Bits(b[2] as int * 256 + b[3], b[2], b[3]);
    }
  }

  /** Two octets that are made of fields. */
  lemma Fields(qr: nat, op: nat, aa: nat, tc: nat, rd: nat)
    requires qr < 2 && op < 16 && aa < 2 && tc < 2 && rd < 2
    ensures var x := qr * 128 + op * 8 + aa * 4 + tc * 2 + rd;
      x < 256 && x / 128 == qr && x / 8 % 16 == op && x / 4 % 2 == aa && x / 2 % 2 == tc && x % 2 == rd
  {
    var x := qr * 128 + op * 8 + aa * 4 + tc * 2 + rd;
    assert x / 2 == qr * 64 + op * 4 + aa * 2 + tc;
    assert x / 4 == qr * 32 + op * 2 + aa;
    assert x / 8 == qr * 16 + op;
  }

  lemma FlagOctets(h: Header)
    ensures var x, y := Flags(h) / 0x100 % 0x100, Flags(h) % 0x100;
      && x / 128 == h.qr % 2 && x / 8 % 16 == h.opCode % 16 && x / 4 % 2 == h.aa % 2 && x / 2 % 2 == h.tc % 2
      && x % 2 == h.rd % 2 && y / 128 == h.ra % 2 && y / 16 % 8 == 0 && y % 16 == h.rCode % 16
  {
    var qr, op, aa, tc, rd := h.qr % 2, h.opCode % 16, h.aa % 2, h.tc % 2, h.rd % 2;
    var x := qr * 128 + op * 8 + aa * 4 + tc * 2 + rd;
    var y := h.ra % 2 * 128 + h.rCode % 16;
    Fields(qr, op, aa, tc, rd);
    assert Flags(h) == x * 256 + y;
    SplitOctets(x, y);
  }

  lemma SplitOctets(x: nat, y: nat)
    requires x < 256 && y < 256
    ensures (x * 256 + y) / 0x100 % 0x100 == x && (x * 256 + y) % 0x100 == y
  {
  }

  lemma CountOctets(m: Msg)
    ensures var c := Counts(m);
      && |c| == 8
      && c[0] as int * 256 + c[1] == |m.queries| % 65536 && c[2] as int * 256 + c[3] == |m.answers| % 65536
      && c[4] as int * 256 + c[5] == |m.authorities| % 65536 && c[6] as int * 256 + c[7] == |m.additional| % 65536
  {
    hide U16;
    var x, y, z, u := U16(|m.queries|), U16(|m.answers|), U16(|m.authorities|), U16(|m.additional|);
    LowOctets(|m.queries|);
    LowOctets(|m.answers|);
    LowOctets(|m.authorities|);
    LowOctets(|m.additional|);
    assert Counts(m) == x + y + z + u;
  }

  /** The header of every message that is written. */
  lemma HeaderIsLaidOut(m: Msg, Q: seq<byte>)
    requires HeaderOctets(m) <= Q
    ensures HeaderLaidOut(Q, m)
  {
    hide Flags, U16, Counts;
    var h, c := m.header, Counts(m);
    FlagOctets(h);
    CountOctets(m);
    LowOctets(h.id);
    LowOctets(Flags(h));
    assert HeaderOctets(m) == U16(h.id) + U16(Flags(h)) + c;
    assert Q[0] == U16(h.id)[0] && Q[1] == U16(h.id)[1];
    assert Q[2] == U16(Flags(h))[0] && Q[3] == U16(Flags(h))[1];
    assert forall i | 0 <= i < 8 :: Q[i + 4] == c[i];
  }

  // ---------- the sections ----------

  ghost predicate QuestionsStand(b: seq<byte>, p: nat, qs: seq<Question>, q: nat)
    decreases |qs|
  {
    if qs == [] then p == q
    else exists m: nat :: QuestionStands(b, p, qs[0], m) && QuestionsStand(b, m, qs[1..], q)
  }

  ghost predicate RecordsStand(b: seq<byte>, p: nat, rrs: seq<RR>, q: nat)
    decreases |rrs|
  {
    if rrs == [] then p == q
    else exists m: nat :: RecordStands(b, p, rrs[0], m) && RecordsStand(b, m, rrs[1..], q)
  }

  lemma {:induction false} QuestionsReadExactly(b: seq<byte>, p: nat, qs: seq<Question>, q: nat)
    requires p <= |b|
    ensures DecodeQuestions(b, p, |qs|) == Parsed(qs, q) <==> QuestionsStand(b, p, qs, q)
    decreases |qs|
  {
    hide DecodeQuestion, QuestionStands;
    if qs != [] {
      if DecodeQuestions(b, p, |qs|) == Parsed(qs, q) {
        var m := DecodeQuestion(b, p).next;
        assert DecodeQuestions(b, m, |qs| - 1) == Parsed(qs[1..], q);
        QuestionReadExactly(b, p, qs[0], m);
        QuestionsReadExactly(b, m, qs[1..], q);
      }
      if QuestionsStand(b, p, qs, q) {
        var m: nat :| QuestionStands(b, p, qs[0], m) && QuestionsStand(b, m, qs[1..], q);
        QuestionReadExactly(b, p, qs[0], m);
        QuestionsReadExactly(b, m, qs[1..], q);
        assert [qs[0]] + qs[1..] == qs;
      }
    }
  }

  lemma {:induction false} RecordsReadExactly(b: seq<byte>, p: nat, rrs: seq<RR>, q: nat)
    requires p <= |b|
    ensures DecodeRecords(b, p, |rrs|) == Parsed(rrs, q) <==> RecordsStand(b, p, rrs, q)
    decreases |rrs|
  {
    hide DecodeRecord, RecordStands;
    if rrs != [] {
      if DecodeRecords(b, p, |rrs|) == Parsed(rrs, q) {
        var m := DecodeRecord(b, p).next;
        assert DecodeRecords(b, m, |rrs| - 1) == Parsed(rrs[1..], q);
        RecordReadExactly(b, p, rrs[0], m);
        RecordsReadExactly(b, m, rrs[1..], q);
      }
      if RecordsStand(b, p, rrs, q) {
        var m: nat :| RecordStands(b, p, rrs[0], m) && RecordsStand(b, m, rrs[1..], q);
        RecordReadExactly(b, p, rrs[0], m);
        RecordsReadExactly(b, m, rrs[1..], q);
        assert [rrs[0]] + rrs[1..] == rrs;
      }
    }
  }

  /** The four lists stand one behind another from the end of the header to the end of the buffer. */
  ghost predicate ListsStand(b: seq<byte>, m: Msg) {
    exists x: nat, y: nat, z: nat ::
      && QuestionsStand(b, 12, m.queries, x) && RecordsStand(b, x, m.answers, y)
      && RecordsStand(b, y, m.authorities, z) && RecordsStand(b, z, m.additional, |b|)
  }

  /** The octets are this message, but for RCODE. */
  ghost predicate MessageStands(b: seq<byte>, m: Msg) {
    |b| <= 512 && FlagsStand(b, m.header) && CountsStand(b, m) && ListsStand(b, m)
  }

  lemma ListsReadExactly(b: seq<byte>, c: RawCounts, m: Msg)
    requires |b| >= 12
    requires c.qd == |m.queries| && c.an == |m.answers| && c.ns == |m.authorities| && c.ar == |m.additional|
    ensures
      (var qs := DecodeQuestions(b, 12, c.qd);
       qs.Parsed? && qs.value == m.queries &&
         DecodeSections(b, qs.next, c) == Parsed((m.answers, m.authorities, m.additional), |b|))
      <==> ListsStand(b, m)
  {
    hide DecodeQuestions, DecodeRecords, QuestionsStand, RecordsStand;
    var qs := DecodeQuestions(b, 12, c.qd);
    if qs.Parsed? && qs.value == m.queries
      && DecodeSections(b, qs.next, c) == Parsed((m.answers, m.authorities, m.additional), |b|) {
      var x := qs.next;
      var y := DecodeRecords(b, x, c.an).next;
      var z := DecodeRecords(b, y, c.ns).next;
      QuestionsReadExactly(b, 12, m.queries, x);
      RecordsReadExactly(b, x, m.answers, y);
      RecordsReadExactly(b, y, m.authorities, z);
      RecordsReadExactly(b, z, m.additional, |b|);
    }
    if ListsStand(b, m) {
      var x: nat, y: nat, z: nat :|
        && QuestionsStand(b, 12, m.queries, x) && RecordsStand(b, x, m.answers, y)
        && RecordsStand(b, y, m.authorities, z) && RecordsStand(b, z, m.additional, |b|);
      QuestionsReadExactly(b, 12, m.queries, x);
      assert DecodeQuestions(b, 12, c.qd).Parsed?;
      RecordsReadExactly(b, x, m.answers, y);
      assert DecodeRecords(b, x, c.an).Parsed?;
      RecordsReadExactly(b, y, m.authorities, z);
      assert DecodeRecords(b, y, c.ns).Parsed?;
      RecordsReadExactly(b, z, m.additional, |b|);
    }
  }

  /** The decoder accepts a message, and says which, if and only if the octets are that message; RCODE is
      what the message object held before. */
  lemma MessageReadExactly(b: seq<byte>, rCode: uint, m: Msg)
    ensures DecodeMessage(b, rCode) == Parsed(m, |b|) <==> MessageStands(b, m) && m.header.rCode == rCode
  {
    hide DecodeHeader, DecodeQuestions, DecodeSections, Unpack, FlagsStand, ListsStand;
    HeaderReadExactly(b);
    if |b| >= 12 {
      var h := DecodeHeader(b).value;
      assert FlagsStand(b, Unpack(h.id, h.fields, rCode));
      SameFlags(b, h, m.header, rCode);
      var c := h.counts;
      if c.qd == |m.queries| && c.an == |m.answers| && c.ns == |m.authorities| && c.ar == |m.additional| {
        ListsReadExactly(b, h.counts, m);
      }
      FlagsNeedHeader(b, m.header);
    } else {
      FlagsNeedHeader(b, m.header);
    }
  }

  lemma FlagsNeedHeader(b: seq<byte>, h: Header)
    ensures FlagsStand(b, h) ==> |b| >= 12
  {
  }

  lemma SameFlags(b: seq<byte>, raw: RawHeader, h: Header, rCode: uint)
    requires FlagsStand(b, Unpack(raw.id, raw.fields, rCode))
    ensures h == Unpack(raw.id, raw.fields, rCode) <==> FlagsStand(b, h) && h.rCode == rCode
  {
  }

  lemma MessageAccepted(b: seq<byte>, rCode: uint)
    ensures DecodeMessage(b, rCode).Parsed? <==> exists m :: MessageStands(b, m)
    ensures DecodeMessage(b, rCode).Parsed? ==> MessageStands(b, DecodeMessage(b, rCode).value)
  {
    hide MessageStands;
    var d := DecodeMessage(b, rCode);
    if d.Parsed? {
      EndsAtEnd(b, rCode);
      MessageReadExactly(b, rCode, d.value);
    }
    if m :| MessageStands(b, m) {
      var m' := m.(header := m.header.(rCode := rCode));
      RCodeIsNotRead(b, m, rCode);
      MessageReadExactly(b, rCode, m');
    }
  }

  lemma EndsAtEnd(b: seq<byte>, rCode: uint)
    ensures DecodeMessage(b, rCode).Parsed? ==> DecodeMessage(b, rCode).next == |b|
  {
    hide DecodeHeader, DecodeQuestions, DecodeSections;
  }

  lemma RCodeIsNotRead(b: seq<byte>, m: Msg, rCode: uint)
    ensures MessageStands(b, m) ==> MessageStands(b, m.(header := m.header.(rCode := rCode)))
  {
    hide QuestionsStand, RecordsStand;
  }
}
