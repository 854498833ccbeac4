/** What questions and resource records are, in terms of the octets of a buffer alone: that the decoder
    reads exactly that, and where the encoder puts each field (RFC 1035 sections 3.2 to 3.4 and 4.1.2 to
    4.1.3, RFC 2782, RFC 3403 and RFC 3596). */
module WireRecords {
  import opened Octets
  import opened Names
  import opened Records
  import opened WireNames

  // ---------- numbers and strings ----------

  /** Two octets, high one first. */
  function Number16(b: seq<byte>, p: nat): nat
    requires p + 2 <= |b|
  {
    b[p] as int * 256 + b[p + 1]
  }

  /** Four octets, highest one first. */
  function Number32(b: seq<byte>, p: nat): nat
    requires p + 4 <= |b|
  {
    b[p] as int * 16777216 + b[p + 1] as int * 65536 + b[p + 2] as int * 256 + b[p + 3]
  }

  /** A length octet and so many octets. */
  predicate StringStands(b: seq<byte>, p: nat, s: seq<byte>) {
    var n := |s|;
    p + 1 + n <= |b| && b[p] == n && b[p + 1..p + 1 + n] == s
  }

  predicate StringsStand(b: seq<byte>, p: nat, texts: seq<seq<byte>>, q: nat)
    decreases |texts|
  {
    if texts == [] then p == q
    else StringStands(b, p, texts[0]) && StringsStand(b, p + 1 + |texts[0]|, texts[1..], q)
  }

  lemma StringReadExactly(b: seq<byte>, p: nat, s: seq<byte>, q: nat)
    ensures GetCharString(b, p) == Parsed(s, q) <==> StringStands(b, p, s) && q == p + 1 + |s|
  {
  }

  lemma {:induction false} StringsGoOn(b: seq<byte>, p: nat, texts: seq<seq<byte>>, q: nat)
    requires StringsStand(b, p, texts, q)
    ensures p + |texts| <= q && (p <= |b| ==> q <= |b|)
    decreases |texts|
  {
    if texts != [] {
      StringsGoOn(b, p + 1 + |texts[0]|, texts[1..], q);
    }
  }

  /** The strings of a TXT record fill its RDATA. */
  lemma {:induction false} TextsReadExactly(b: seq<byte>, p: nat, texts: seq<seq<byte>>, q: nat)
    ensures p <= q && DecodeTexts(b, p, q) == Parsed(texts, q) <==> StringsStand(b, p, texts, q)
    decreases |b| - p, |texts|
  {
    hide StringStands;
    if texts != [] {
      var s := texts[0];
      StringReadExactly(b, p, s, p + 1 + |s|);
      if p < q && GetCharString(b, p) == Parsed(s, p + 1 + |s|) {
        var p' := p + 1 + |s|;
        TextsReadExactly(b, p', texts[1..], q);
        TextsStep(b, p, q, texts);
      }
      if StringsStand(b, p, texts, q) {
        StringsGoOn(b, p, texts, q);
      }
    }
  }

  lemma TextsStep(b: seq<byte>, p: nat, q: nat, texts: seq<seq<byte>>)
    requires p < q && texts != [] && GetCharString(b, p) == Parsed(texts[0], p + 1 + |texts[0]|)
    ensures var r := DecodeTexts(b, p + 1 + |texts[0]|, q);
      DecodeTexts(b, p, q) == Parsed(texts, q) <==> r == Parsed(texts[1..], q)
  {
    var r := DecodeTexts(b, p + 1 + |texts[0]|, q);
    if r.Parsed? {
      assert ([texts[0]] + r.value)[1..] == r.value;
      assert texts == [texts[0]] + texts[1..];
    }
  }

  /** Strings with a dot behind each. */
  function Dotted(texts: seq<seq<byte>>): seq<byte> {
    if texts == [] then [] else texts[0] + [46] + Dotted(texts[1..])
  }

  lemma {:induction false} TargetIsDotted(b: seq<byte>, p: nat, limit: nat)
    ensures var r, ts := DecodeTarget(b, p, limit), DecodeTexts(b, p, limit);
      r == match ts case Failed(e) => Failed(e) case Parsed(texts, q) => Parsed(Dotted(texts), q)
    decreases |b| - p
  {
    if p < limit && GetCharString(b, p).Parsed? {
      var s, p' := GetCharString(b, p).value, GetCharString(b, p).next;
      TargetIsDotted(b, p', limit);
      var ts := DecodeTexts(b, p', limit);
      if ts.Parsed? {
        assert ([s] + ts.value)[1..] == ts.value;
      }
    }
  }

  // ---------- RDATA ----------

  /** Which RDATA a type code announces. */
  predicate HasForm(rtype: uint, rd: RData) {
    && (rd.NameData? <==> rtype in {2, 3, 4, 5, 7, 8, 9, 12})
    && (rd.Soa? <==> rtype == 6)
    && (rd.HInfo? <==> rtype == 13)
    && (rd.MInfo? <==> rtype == 14)
    && (rd.Mx? <==> rtype == 15)
    && (rd.Txt? <==> rtype == 16)
    && (rd.Address4? <==> rtype == 1 || rtype == 11)
    && (rd.Address6? <==> rtype == 28)
    && (rd.Srv? <==> rtype == 33)
    && (rd.Naptr? <==> rtype == 35)
    && !rd.Wks?
  }

  predicate TimersStand(b: seq<byte>, p: nat, t: Timers) {
    && p + 20 <= |b|
    && t.serial == Number32(b, p) && t.refresh == Number32(b, p + 4) && t.retry == Number32(b, p + 8)
    && t.expire == Number32(b, p + 12) && t.minimum == Number32(b, p + 16)
  }

  ghost predicate TwoNamesStand(b: seq<byte>, p: nat, x: seq<byte>, y: seq<byte>, q: nat) {
    exists m: nat :: NameStands(b, p, x, m) && NameStands(b, m, y, q)
  }

  ghost predicate SoaStands(b: seq<byte>, p: nat, rd: RData, q: nat)
    requires rd.Soa?
  {
    q >= 20 && TwoNamesStand(b, p, rd.mName, rd.rName, q - 20) && TimersStand(b, q - 20, rd.timers)
  }

  ghost predicate NaptrStands(b: seq<byte>, p: nat, rd: RData, q: nat)
    requires rd.Naptr?
  {
    var s1 := p + 4;
    var s2 := s1 + 1 + |rd.flags|;
    var s3 := s2 + 1 + |rd.services|;
    var n := s3 + 1 + |rd.regExp|;
    && s1 <= |b| && rd.order == Number16(b, p) && rd.naptrPreference == Number16(b, p + 2)
    && StringStands(b, s1, rd.flags) && StringStands(b, s2, rd.services) && StringStands(b, s3, rd.regExp)
    && PlainNameStands(b, n, rd.replacement, q)
  }

  /** The target is made of strings with a dot behind each, without the last two characters. */
  ghost predicate SrvStands(b: seq<byte>, p: nat, rd: RData, q: nat)
    requires rd.Srv?
  {
    && p + 6 <= |b|
    && rd.priority == Number16(b, p) && rd.weight == Number16(b, p + 2) && rd.port == Number16(b, p + 4)
    && exists texts: seq<seq<byte>> :: StringsStand(b, p + 6, texts, q) && IsTarget(texts, rd.target)
  }

  predicate IsTarget(texts: seq<seq<byte>>, target: seq<byte>) {
    |Dotted(texts)| >= 2 && target == Dotted(texts)[..|Dotted(texts)| - 2]
  }

  /** The RDATA stands in `b` from `p` to `q`. */
  ghost predicate RDataStands(b: seq<byte>, p: nat, rd: RData, q: nat) {
    match rd
    case NameData(name) => NameStands(b, p, name, q)
    case HInfo(cpu, os) =>
      StringStands(b, p, cpu) && StringStands(b, p + 1 + |cpu|, os) && q == p + 2 + |cpu| + |os|
    case MInfo(x, y) => TwoNamesStand(b, p, x, y, q)
    case Mx(preference, exchange) =>
      p + 2 <= |b| && preference == Number16(b, p) && NameStands(b, p + 2, exchange, q)
    case Soa(_, _, _) => SoaStands(b, p, rd, q)
    case Txt(texts) => StringsStand(b, p, texts, q)
    case Address4(addr) => q == p + 4 <= |b| && b[p..q] == addr
    case Address6(addr) => q == p + 16 <= |b| && b[p..q] == addr
    case Naptr(_, _, _, _, _, _) => NaptrStands(b, p, rd, q)
    case Srv(_, _, _, _) => SrvStands(b, p, rd, q)
    case Wks(_, _, _) => false
    case Raw(data) => p <= q <= |b| && b[p..q] == data
  }

  lemma TwoNamesReadExactly(b: seq<byte>, p: nat, x: seq<byte>, y: seq<byte>, q: nat)
    requires p <= |b|
    ensures DecodeTwoNames(b, p) == Parsed((x, y), q) <==> TwoNamesStand(b, p, x, y, q)
  {
    hide DecodeName, NameStands;
    if DecodeTwoNames(b, p) == Parsed((x, y), q) {
      var m := DecodeName(b, p, [], true).next;
      NameReadExactly(b, p, x, m);
      NameReadExactly(b, m, y, q);
    }
    if TwoNamesStand(b, p, x, y, q) {
      var m: nat :| NameStands(b, p, x, m) && NameStands(b, m, y, q);
      NameReadExactly(b, p, x, m);
      assert DecodeName(b, p, [], true).Parsed?;
      NameReadExactly(b, m, y, q);
    }
  }

  lemma TimersReadExactly(b: seq<byte>, p: nat, t: Timers, q: nat)
    ensures DecodeTimers(b, p) == Parsed(t, q) <==> TimersStand(b, p, t) && q == p + 20
  {
  }

  lemma SoaReadExactly(b: seq<byte>, p: nat, rd: RData, q: nat)
    requires p <= |b|
    ensures DecodeSoa(b, p) == Parsed(rd, q) <==> rd.Soa? && SoaStands(b, p, rd, q)
  {
    hide DecodeTwoNames, DecodeTimers, TwoNamesStand, TimersStand;
    if rd.Soa? && q >= 20 {
      TwoNamesReadExactly(b, p, rd.mName, rd.rName, q - 20);
      TimersReadExactly(b, q - 20, rd.timers, q);
    }
    var names := DecodeTwoNames(b, p);
    if names.Parsed? {
      var timers := DecodeTimers(b, names.next);
      if timers.Parsed? {
        TimersReadExactly(b, names.next, timers.value, timers.next);
      }
    }
  }

  lemma NaptrReadExactly(b: seq<byte>, p: nat, rd: RData, q: nat)
    requires p <= |b|
    ensures DecodeNaptr(b, p) == Parsed(rd, q) <==> rd.Naptr? && NaptrStands(b, p, rd, q)
  {
    hide DecodeName, GetCharString, StringStands, PlainNameStands;
    if rd.Naptr? {
      var s2 := p + 5 + |rd.flags|;
      var s3 := s2 + 1 + |rd.services|;
      var n := s3 + 1 + |rd.regExp|;
      StringReadExactly(b, p + 4, rd.flags, s2);
      StringReadExactly(b, s2, rd.services, s3);
      StringReadExactly(b, s3, rd.regExp, n);
      StringEnds(b, p + 4);
      StringEnds(b, s2);
      StringEnds(b, s3);
      if n <= |b| {
        PlainNameReadExactly(b, n, rd.replacement, q);
      }
      StringFits(b, s3, rd.regExp);
    }
  }

  lemma StringEnds(b: seq<byte>, p: nat)
    ensures var r := GetCharString(b, p); r.Parsed? ==> r.next == p + 1 + |r.value|
  {
  }

  lemma StringFits(b: seq<byte>, p: nat, s: seq<byte>)
    ensures StringStands(b, p, s) ==> p + 1 + |s| <= |b|
  {
  }

  /** The type code selects the form, and RDATA of that form is read exactly where it stands. */
  lemma RDataReadExactly(b: seq<byte>, p: nat, rtype: uint, rd: RData, size: nat)
    requires p <= |b| && 0 < size < 0x1_0000_0000
    ensures DecodeRData(b, p, KindOf(rtype), size) == Parsed(rd, p + size) <==>
      HasForm(rtype, rd) && RDataStands(b, p, rd, p + size)
  {
    hide DecodeName, DecodeTwoNames, DecodeSoa, DecodeNaptr, DecodeSrv, DecodeTexts, GetCharString, NameStands,
      TwoNamesStand, SoaStands, NaptrStands, SrvStands, StringsStand, StringStands;
    var q := p + size;
    NaptrIsNaptr(b, p);
    SoaIsSoa(b, p);
    SrvIsSrv(b, p, size);
    match rd
    case NameData(name) => NameReadExactly(b, p, name, q);
    case HInfo(cpu, os) => HInfoReadExactly(b, p, cpu, os, q);
    case MInfo(x, y) => TwoNamesReadExactly(b, p, x, y, q);
    case Mx(preference, exchange) => MxReadExactly(b, p, preference, exchange, q);
    case Soa(_, _, _) => SoaReadExactly(b, p, rd, q);
    case Txt(texts) => TextsReadExactly(b, p, texts, q);
    case Naptr(_, _, _, _, _, _) => NaptrReadExactly(b, p, rd, q);
    case Srv(_, _, _, _) => SrvReadExactly(b, p, rd, size);
    case _ =>
  }

  lemma NaptrIsNaptr(b: seq<byte>, p: nat)
    ensures DecodeNaptr(b, p).Parsed? ==> DecodeNaptr(b, p).value.Naptr?
  {
  }

  lemma SoaIsSoa(b: seq<byte>, p: nat)
    requires p <= |b|
    ensures DecodeSoa(b, p).Parsed? ==> DecodeSoa(b, p).value.Soa?
  {
  }

  lemma SrvIsSrv(b: seq<byte>, p: nat, size: nat)
    ensures DecodeSrv(b, p, size).Parsed? ==> DecodeSrv(b, p, size).value.Srv?
  {
  }

  /** Two strings, one behind the other. */
  lemma HInfoReadExactly(b: seq<byte>, p: nat, cpu: seq<byte>, os: seq<byte>, q: nat)
    requires p <= |b|
    ensures forall size :: DecodeRData(b, p, HInfoKind, size) == Parsed(HInfo(cpu, os), q) <==>
      StringStands(b, p, cpu) && StringStands(b, p + 1 + |cpu|, os) && q == p + 2 + |cpu| + |os|
  {
    hide GetCharString, StringStands;
    StringReadExactly(b, p, cpu, p + 1 + |cpu|);
    StringReadExactly(b, p + 1 + |cpu|, os, q);
    StringEnds(b, p);
  }

  lemma MxReadExactly(b: seq<byte>, p: nat, preference: uint, exchange: seq<byte>, q: nat)
    requires p <= |b|
    ensures forall size :: DecodeRData(b, p, MxKind, size) == Parsed(Mx(preference, exchange), q) <==>
      p + 2 <= |b| && preference == Number16(b, p) && NameStands(b, p + 2, exchange, q)
  {
    hide DecodeName, NameStands;
    if p + 2 <= |b| {
      NameReadExactly(b, p + 2, exchange, q);
    }
  }

  lemma SrvReadExactly(b: seq<byte>, p: nat, rd: RData, size: nat)
    requires p <= |b| && rd.Srv? && 0 < size < 0x1_0000_0000
    ensures DecodeSrv(b, p, size) == Parsed(rd, p + size) <==> SrvStands(b, p, rd, p + size)
  {
    hide DecodeTarget, DecodeTexts, StringsStand, TargetSize;
    var q := p + size;
    if DecodeSrv(b, p, size) == Parsed(rd, q) {
      assert size >= 6;
      SizeOfTarget(size);
      TargetIsDotted(b, p + 6, q);
      TextsReadExactly(b, p + 6, DecodeTexts(b, p + 6, q).value, q);
      assert IsTarget(DecodeTexts(b, p + 6, q).value, rd.target);
    }
    if SrvStands(b, p, rd, q) {
      var texts: seq<seq<byte>> :| StringsStand(b, p + 6, texts, q) && IsTarget(texts, rd.target);
      StringsGoOn(b, p + 6, texts, q);
      SizeOfTarget(size);
      TargetIsDotted(b, p + 6, q);
      TextsReadExactly(b, p + 6, texts, q);
    }
  }

  lemma SizeOfTarget(size: nat)
    requires 6 <= size < 0x1_0000_0000
    ensures TargetSize(size) == size - 6
  {
  }

  // ---------- records and questions ----------

  /** The question stands in `b` from `p` to `q`: name, type and class. */
  ghost predicate QuestionStands(b: seq<byte>, p: nat, x: Question, q: nat) {
    && 4 <= q <= |b| && NameStands(b, p, x.qName, q - 4)
    && x.qType == Number16(b, q - 4) && x.qClass == Number16(b, q - 2)
  }

  lemma QuestionReadExactly(b: seq<byte>, p: nat, x: Question, q: nat)
    requires p <= |b|
    ensures DecodeQuestion(b, p) == Parsed(x, q) <==> QuestionStands(b, p, x, q)
  {
    hide DecodeName, NameStands;
    if q >= 4 {
      NameReadExactly(b, p, x.qName, q - 4);
    }
  }

  /** The record stands in `b` from `p` to `q`, and `n` is where its name ends: then come type, class, TTL,
      the size of the RDATA, and the RDATA of that size and of the form that the type announces. */
  ghost predicate RecordStandsFrom(b: seq<byte>, p: nat, n: nat, rr: RR, q: nat) {
    && NameStands(b, p, rr.name, n) && n + 10 <= q <= |b|
    && rr.rtype == Number16(b, n) && rr.rclass == Number16(b, n + 2) && rr.ttl == Number32(b, n + 4)
    && q == n + 10 + Number16(b, n + 8)
    && match rr.rdata
       case None => q == n + 10
       case Some(rd) => q > n + 10 && HasForm(rr.rtype, rd) && RDataStands(b, n + 10, rd, q)
  }

  ghost predicate RecordStands(b: seq<byte>, p: nat, rr: RR, q: nat) {
    exists n: nat :: RecordStandsFrom(b, p, n, rr, q)
  }

  lemma FixedReadExactly(b: seq<byte>, n: nat, f: Fixed)
    ensures DecodeFixed(b, n) == Parsed(f, n + 10) <==>
      n + 10 <= |b| && f == Fixed(Number16(b, n), Number16(b, n + 2), Number32(b, n + 4), Number16(b, n + 8))
  {
  }

  lemma BodyReadExactly(b: seq<byte>, p: nat, f: Fixed, rdata: Option<RData>, q: nat)
    requires p <= |b|
    ensures DecodeBody(b, p, f) == Parsed(rdata, q) <==>
      && q == p + f.size <= |b|
      && match rdata
         case None => q == p
         case Some(rd) => q > p && HasForm(f.rtype, rd) && RDataStands(b, p, rd, q)
  {
    hide DecodeRData, KindOf, HasForm, RDataStands;
    if rdata.Some? && f.size > 0 {
      RDataReadExactly(b, p, f.rtype, rdata.value, f.size);
    }
  }

  /** The decoder accepts a record, and says which and where it ends, if and only if it stands there. */
  lemma RecordReadExactly(b: seq<byte>, p: nat, rr: RR, q: nat)
    requires p <= |b|
    ensures DecodeRecord(b, p) == Parsed(rr, q) <==> RecordStands(b, p, rr, q)
  {
    hide DecodeName, DecodeFixed, DecodeBody, NameStands, HasForm, RDataStands;
    if DecodeRecord(b, p) == Parsed(rr, q) {
      var n := DecodeName(b, p, [], true).next;
      var f := DecodeFixed(b, n).value;
      NameReadExactly(b, p, rr.name, n);
      FixedReadExactly(b, n, f);
      BodyReadExactly(b, n + 10, f, rr.rdata, q);
      assert RecordStandsFrom(b, p, n, rr, q);
    }
    if RecordStands(b, p, rr, q) {
      var n: nat :| RecordStandsFrom(b, p, n, rr, q);
      var f := Fixed(Number16(b, n), Number16(b, n + 2), Number32(b, n + 4), Number16(b, n + 8));
      NameReadExactly(b, p, rr.name, n);
      FixedReadExactly(b, n, f);
      BodyReadExactly(b, n + 10, f, rr.rdata, q);
    }
  }

  lemma RecordAccepted(b: seq<byte>, p: nat)
    requires p <= |b|
    ensures DecodeRecord(b, p).Parsed? <==> exists rr, q :: RecordStands(b, p, rr, q)
    ensures DecodeRecord(b, p).Parsed? ==> RecordStands(b, p, DecodeRecord(b, p).value, DecodeRecord(b, p).next)
  {
    hide DecodeRecord, RecordStands;
    var d := DecodeRecord(b, p);
    if d.Parsed? {
      RecordReadExactly(b, p, d.value, d.next);
    }
    if rr, q :| RecordStands(b, p, rr, q) {
      RecordReadExactly(b, p, rr, q);
    }
  }

  /** Which records the codec is meant for, by their type codes; the bit map of a WKS record counts as the
      address that it is read as. */
  lemma RecordOkExactly(rr: RR)
    ensures RecordOk(rr) <==>
      && NameOk(rr.name) && rr.rtype < 0x1_0000 && rr.rclass < 0x1_0000
      && (rr.rdata.Some? ==>
            && RDataOk(rr.rdata.value)
            && (HasForm(rr.rtype, rr.rdata.value) || (rr.rdata.value.Wks? && rr.rtype in {1, 11})))
  {
    hide NameOk, RDataOk;
  }
}
