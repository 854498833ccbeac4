/** Records come back although their length field is patched after pointers into it may exist. */
module RecordRoundTrip {
  import opened Octets
  import opened Names
  import opened NameRoundTrip
  import opened Records

  // ---------- fields in a stage ----------

  /** `Q` was reached from `P` on the way to `Z`, which `b` holds up to a patch before `P`. */
  lemma OnTheWay(b: seq<byte>, Z: seq<byte>, k: int, P: seq<byte>, Q: seq<byte>)
    requires Stage(b, Z, k) && P <= Q <= Z && k + 2 <= |P|
    ensures Stage(b, P, k) && Stage(b, Q, k) && At(b, |P|, Q[|P|..])
  {
    assert forall i | 0 <= i < |Q| :: Q[i] == Z[i];
    assert forall i | 0 <= i < |P| :: P[i] == Q[i];
  }

  lemma FieldWritten(b: seq<byte>, Z: seq<byte>, k: int, P: seq<byte>, w: seq<byte>)
    requires Stage(b, Z, k) && P + w <= Z && k + 2 <= |P|
    ensures At(b, |P|, w)
  {
    OnTheWay(b, Z, k, P, P + w);
    assert (P + w)[|P|..] == w;
  }

  /** A compressed name on the way to a buffer of at most 14 bits. */
  lemma NameWritten(b: seq<byte>, Z: seq<byte>, k: int, P: seq<byte>, text: seq<byte>)
    requires NameOk(text) && Stage(b, Z, k) && AppendName(P, text, true).value <= Z && k + 2 <= |P|
    requires |Z| <= 0x4000
    ensures var r, Q := DecodeName(b, |P|, [], true), AppendName(P, text, true).value;
      if NameIntact(b, P, text, true) then r == Parsed(text, |Q|) else r.Failed? || r.value != text
  {
    OnTheWay(b, Z, k, P, AppendName(P, text, true).value);
    ShortBufferFits(P, text);
    NameComesBack(b, P, k, text, true, true);
  }

  // ---------- RDATA ----------

  /** Every compression pointer inside the RDATA still works in `b`; SRV and WKS records are not meant
      to be decoded from what their encoders write. */
  predicate RDataIntact(b: seq<byte>, P: seq<byte>, rd: RData)
    requires RDataOk(rd)
  {
    match rd
    case NameData(name) => NameIntact(b, P, name, true)
    case MInfo(x, y) => NameIntact(b, P, x, true) && NameIntact(b, AppendName(P, x, true).value, y, true)
    case Mx(preference, exchange) => NameIntact(b, P + U16(preference), exchange, true)
    case Soa(x, y, _) => NameIntact(b, P, x, true) && NameIntact(b, AppendName(P, x, true).value, y, true)
    case Srv(_, _, _, _) => false
    case Wks(_, _, _) => false
    case _ => true
  }

  /** What reading RDATA must give: exactly `rd` if the pointers survived, and never `rd` otherwise. */
  predicate Faithful(r: Parsed<RData>, intact: bool, rd: RData, end: nat) {
    if intact then r == Parsed(rd, end) else r.Failed? || r.value != rd
  }

  /** Reading behind `P` what `rd` wrote up to `Z` is faithful in `b`. */
  predicate ReadBack(b: seq<byte>, Z: seq<byte>, P: seq<byte>, rd: RData)
    requires RDataOk(rd) && |P| <= |Z| && |P| <= |b|
  {
    Faithful(DecodeRData(b, |P|, KindOfData(rd), |Z| - |P|), RDataIntact(b, P, rd), rd, |Z|)
  }

  lemma {:induction false} TextsComeBack(b: seq<byte>, Z: seq<byte>, k: int, P: seq<byte>, texts: seq<seq<byte>>)
    requires forall i | 0 <= i < |texts| :: |texts[i]| <= 255
    requires Stage(b, Z, k) && AppendTexts(P, texts) == Z && k + 2 <= |P|
    ensures DecodeTexts(b, |P|, |Z|) == Parsed(texts, |Z|)
    decreases |texts|
  {
    if texts != [] {
      var P1 := P + CharString(texts[0]);
      FieldWritten(b, Z, k, P, CharString(texts[0]));
      CharStringRoundTrip(b, |P|, texts[0]);
      TextsComeBack(b, Z, k, P1, texts[1..]);
      assert |P| < |P1| <= |Z| && texts == [texts[0]] + texts[1..];
    }
  }

  lemma TimersComeBack(b: seq<byte>, p: nat, t: Timers)
    requires At(b, p, TimerOctets(t))
    ensures DecodeTimers(b, p) == Parsed(t, p + 20)
  {
    var a1, a2, a3, a4, a5 := U32(t.serial), U32(t.refresh), U32(t.retry), U32(t.expire), U32(t.minimum);
    AtConcat(b, p, a1 + a2 + a3 + a4, a5);
    AtConcat(b, p, a1 + a2 + a3, a4);
    AtConcat(b, p, a1 + a2, a3);
    AtConcat(b, p, a1, a2);
    Field32(b, p, t.serial);
    Field32(b, p + 4, t.refresh);
    Field32(b, p + 8, t.retry);
    Field32(b, p + 12, t.expire);
    Field32(b, p + 16, t.minimum);
  }

  lemma HInfoComesBack(b: seq<byte>, p: nat, cpu: seq<byte>, os: seq<byte>)
    requires At(b, p, CharString(cpu) + CharString(os)) && |cpu| <= 255 && |os| <= 255
    ensures p <= |b| && DecodeRData(b, p, HInfoKind, 0) == Parsed(HInfo(cpu, os), p + |cpu| + |os| + 2)
  {
    AtConcat(b, p, CharString(cpu), CharString(os));
    CharStringRoundTrip(b, p, cpu);
    CharStringRoundTrip(b, p + 1 + |cpu|, os);
  }

  lemma NaptrNumbers(b: seq<byte>, p: nat, order: uint, preference: uint)
    requires At(b, p, U16(order) + U16(preference)) && order < 0x1_0000 && preference < 0x1_0000
    ensures Get16(b, p) == Parsed(order, p + 2) && Get16(b, p + 2) == Parsed(preference, p + 4)
  {
    AtConcat(b, p, U16(order), U16(preference));
    Field16(b, p, order);
    Field16(b, p + 2, preference);
  }

  lemma NaptrStrings(b: seq<byte>, p: nat, x: seq<byte>, y: seq<byte>, z: seq<byte>)
    requires At(b, p, CharString(x) + CharString(y) + CharString(z))
    requires |x| <= 255 && |y| <= 255 && |z| <= 255
    ensures DecodeThreeStrings(b, p) == Parsed((x, y, z), p + |CharString(x) + CharString(y) + CharString(z)|)
  {
    AtConcat(b, p, CharString(x) + CharString(y), CharString(z));
    AtConcat(b, p, CharString(x), CharString(y));
    CharStringRoundTrip(b, p, x);
    CharStringRoundTrip(b, p + 1 + |x|, y);
    CharStringRoundTrip(b, p + 1 + |x| + 1 + |y|, z);
  }

  lemma NaptrHeadRead(b: seq<byte>, p: nat, rd: RData)
    requires rd.Naptr? && RDataOk(rd) && At(b, p, NaptrHead(rd))
    ensures Get16(b, p) == Parsed(rd.order, p + 2)
    ensures Get16(b, p + 2) == Parsed(rd.naptrPreference, p + 4)
    ensures DecodeThreeStrings(b, p + 4) == Parsed((rd.flags, rd.services, rd.regExp), p + |NaptrHead(rd)|)
  {
    var n := U16(rd.order) + U16(rd.naptrPreference);
    var t := CharString(rd.flags) + CharString(rd.services) + CharString(rd.regExp);
    assert NaptrHead(rd) == n + t;
    AtConcat(b, p, n, t);
    NaptrNumbers(b, p, rd.order, rd.naptrPreference);
    NaptrStrings(b, p + 4, rd.flags, rd.services, rd.regExp);
  }

  lemma NaptrDecodes(b: seq<byte>, Z: seq<byte>, k: int, P: seq<byte>, rd: RData)
    requires rd.Naptr? && RDataOk(rd) && Stage(b, Z, k) && k + 2 <= |P|
    requires AppendName(P + NaptrHead(rd), rd.replacement, false) == Ok(Z)
    ensures DecodeNaptr(b, |P|) == Parsed(rd, |Z|)
  {
    var P1 := P + NaptrHead(rd);
    PlainNameWritten(b, Z, k, P1, rd.replacement);
    FieldWritten(b, Z, k, P, NaptrHead(rd));
    NaptrHeadRead(b, |P|, rd);
    NaptrFields(b, |P|, |P1|, |Z|, rd);
  }

  lemma NaptrComesBack(b: seq<byte>, Z: seq<byte>, k: int, P: seq<byte>, rd: RData)
    requires rd.Naptr? && RDataOk(rd) && Stage(b, Z, k) && AppendRData(P, rd) == Ok(Z) && k + 2 <= |P|
    ensures ReadBack(b, Z, P, rd)
  {
    hide DecodeName, NameOk, DecodeNaptr;
    NaptrDecodes(b, Z, k, P, rd);
  }

  lemma NaptrFields(b: seq<byte>, p: nat, q: nat, end: nat, rd: RData)
    requires rd.Naptr? && Get16(b, p) == Parsed(rd.order, p + 2)
    requires Get16(b, p + 2) == Parsed(rd.naptrPreference, p + 4)
    requires DecodeThreeStrings(b, p + 4) == Parsed((rd.flags, rd.services, rd.regExp), q)
    requires q <= |b| && DecodeName(b, q, [], false) == Parsed(rd.replacement, end)
    ensures DecodeNaptr(b, p) == Parsed(rd, end)
  {
  }

  lemma PlainNameWritten(b: seq<byte>, Z: seq<byte>, k: int, P: seq<byte>, text: seq<byte>)
    requires NameOk(text) && Stage(b, Z, k) && AppendName(P, text, false) == Ok(Z) && k + 2 <= |P|
    ensures DecodeName(b, |P|, [], false) == Parsed(text, |Z|)
  {
    OnTheWay(b, Z, k, P, Z);
    NameComesBack(b, P, k, text, false, false);
  }

  /** Two compressed names in a row, as in MINFO and SOA. */
  lemma TwoNames(b: seq<byte>, Z: seq<byte>, k: int, P: seq<byte>, P1: seq<byte>, P2: seq<byte>,
                 x: seq<byte>, y: seq<byte>)
    requires NameOk(x) && NameOk(y) && Stage(b, Z, k) && k + 2 <= |P| && |Z| <= 0x4000
    requires AppendName(P, x, true) == Ok(P1) && AppendName(P1, y, true) == Ok(P2) && P2 <= Z
    ensures FaithfulNames(DecodeTwoNames(b, |P|), NameIntact(b, P, x, true) && NameIntact(b, P1, y, true), (x, y), |P2|)
  {
    NameWritten(b, Z, k, P, x);
    NameWritten(b, Z, k, P1, y);
  }

  /** The same condition as `Faithful`, for two names. */
  predicate FaithfulNames(
    r: Parsed<(seq<byte>, seq<byte>)>, intact: bool, names: (seq<byte>, seq<byte>), end: nat)
  {
    if intact then r == Parsed(names, end) else r.Failed? || r.value != names
  }

  lemma SoaTimers(b: seq<byte>, Z: seq<byte>, k: int, P: seq<byte>, t: Timers)
    requires Stage(b, Z, k) && Z == P + TimerOctets(t) && k + 2 <= |P|
    ensures DecodeTimers(b, |P|) == Parsed(t, |Z|)
  {
    FieldWritten(b, Z, k, P, TimerOctets(t));
    TimersComeBack(b, |P|, t);
  }

  lemma SoaFields(b: seq<byte>, p: nat, p1: nat, p2: nat, intact: bool, rd: RData)
    requires rd.Soa? && p <= |b|
    requires FaithfulNames(DecodeTwoNames(b, p), intact, (rd.mName, rd.rName), p1)
    requires DecodeTimers(b, p1) == Parsed(rd.timers, p2)
    ensures Faithful(DecodeSoa(b, p), intact, rd, p2)
  {
  }

  lemma SoaLayout(P: seq<byte>, Z: seq<byte>, rd: RData) returns (P1: seq<byte>, P2: seq<byte>)
    requires rd.Soa? && RDataOk(rd) && AppendRData(P, rd) == Ok(Z)
    ensures AppendName(P, rd.mName, true) == Ok(P1) && AppendName(P1, rd.rName, true) == Ok(P2)
    ensures P <= P1 <= P2 <= Z == P2 + TimerOctets(rd.timers)
  {
    P1 := AppendName(P, rd.mName, true).value;
    P2 := AppendName(P1, rd.rName, true).value;
  }

  lemma SoaComesBack(b: seq<byte>, Z: seq<byte>, k: int, P: seq<byte>, rd: RData)
    requires rd.Soa? && RDataOk(rd) && Stage(b, Z, k) && AppendRData(P, rd) == Ok(Z)
    requires k + 2 <= |P| && |Z| <= 0x4000
    ensures ReadBack(b, Z, P, rd)
  {
    hide DecodeTwoNames, DecodeTimers, DecodeSoa, NameIntact, AppendRData, NameOk;
    var P1, P2 := SoaLayout(P, Z, rd);
    SoaTimers(b, Z, k, P2, rd.timers);
    TwoNames(b, Z, k, P, P1, P2, rd.mName, rd.rName);
    SoaFields(b, |P|, |P2|, |Z|, RDataIntact(b, P, rd), rd);
  }

  lemma MxComesBack(b: seq<byte>, Z: seq<byte>, k: int, P: seq<byte>, rd: RData)
    requires rd.Mx? && RDataOk(rd) && Stage(b, Z, k) && AppendRData(P, rd) == Ok(Z)
    requires k + 2 <= |P| && |Z| <= 0x4000
    ensures ReadBack(b, Z, P, rd)
  {
    hide DecodeName, AppendName, NameOk;
    FieldWritten(b, Z, k, P, U16(rd.preference));
    Field16(b, |P|, rd.preference);
    NameWritten(b, Z, k, P + U16(rd.preference), rd.exchange);
  }

  lemma MInfoComesBack(b: seq<byte>, Z: seq<byte>, k: int, P: seq<byte>, rd: RData)
    requires rd.MInfo? && RDataOk(rd) && Stage(b, Z, k) && AppendRData(P, rd) == Ok(Z)
    requires k + 2 <= |P| && |Z| <= 0x4000
    ensures ReadBack(b, Z, P, rd)
  {
    var P1 := AppendName(P, rd.rMailBx, true).value;
    TwoNames(b, Z, k, P, P1, Z, rd.rMailBx, rd.mailBx);
  }

  lemma HInfoWritten(b: seq<byte>, Z: seq<byte>, k: int, P: seq<byte>, rd: RData)
    requires rd.HInfo? && RDataOk(rd) && Stage(b, Z, k) && AppendRData(P, rd) == Ok(Z) && k + 2 <= |P|
    ensures ReadBack(b, Z, P, rd)
  {
    var w := CharString(rd.cpu) + CharString(rd.os);
    assert Z == P + w;
    FieldWritten(b, Z, k, P, w);
    HInfoComesBack(b, |P|, rd.cpu, rd.os);
  }

  lemma OctetsWritten(b: seq<byte>, Z: seq<byte>, k: int, P: seq<byte>, data: seq<byte>)
    requires Stage(b, Z, k) && Z == P + data && k + 2 <= |P|
    ensures GetBytes(b, |P|, |data|) == Parsed(data, |Z|)
  {
    FieldWritten(b, Z, k, P, data);
  }

  /** RDATA that is a plain run of octets. */
  lemma OctetsComeBack(b: seq<byte>, Z: seq<byte>, k: int, P: seq<byte>, rd: RData)
    requires (rd.Address4? || rd.Address6? || rd.Raw?) && RDataOk(rd)
    requires Stage(b, Z, k) && AppendRData(P, rd) == Ok(Z) && k + 2 <= |P|
    ensures ReadBack(b, Z, P, rd)
  {
    OctetsWritten(b, Z, k, P, match rd case Address4(a) => a case Address6(a) => a case Raw(data) => data);
  }

  lemma NameDataComesBack(b: seq<byte>, Z: seq<byte>, k: int, P: seq<byte>, rd: RData)
    requires rd.NameData? && RDataOk(rd) && Stage(b, Z, k) && AppendRData(P, rd) == Ok(Z)
    requires k + 2 <= |P| && |Z| <= 0x4000
    ensures ReadBack(b, Z, P, rd)
  {
    NameWritten(b, Z, k, P, rd.name);
  }

  lemma TxtComesBack(b: seq<byte>, Z: seq<byte>, k: int, P: seq<byte>, rd: RData)
    requires rd.Txt? && RDataOk(rd) && Stage(b, Z, k) && AppendRData(P, rd) == Ok(Z) && k + 2 <= |P|
    ensures ReadBack(b, Z, P, rd)
  {
    TextsComeBack(b, Z, k, P, rd.texts);
  }

  lemma TargetRead(b: seq<byte>, p: nat, target: seq<byte>)
    requires At(b, p, CharString(target)) && |target| <= 255
    ensures DecodeTarget(b, p, p + 1 + |target|) == Parsed(target + [DOT], p + 1 + |target|)
  {
    CharStringRoundTrip(b, p, target);
    assert DecodeTarget(b, p + 1 + |target|, p + 1 + |target|) == Parsed([], p + 1 + |target|);
    assert target + [DOT] + [] == target + [DOT];
  }

  /** The encoder writes the target as one string, the decoder expects the labels of a name: whatever
      the target is, its last character is missing afterwards. */
  lemma SrvLost(b: seq<byte>, Z: seq<byte>, k: int, P: seq<byte>, rd: RData)
    requires rd.Srv? && RDataOk(rd) && Stage(b, Z, k) && AppendRData(P, rd) == Ok(Z) && k + 2 <= |P|
    ensures ReadBack(b, Z, P, rd)
    ensures var r := DecodeRData(b, |P|, SrvKind, |Z| - |P|);
      if rd.target == [] then r == Failed(PopFromEmpty)
      else r == Parsed(rd.(target := rd.target[..|rd.target| - 1]), |Z|)
  {
    hide DecodeTarget;
    var w := SrvHead(rd) + CharString(rd.target);
    assert Z == P + w;
    FieldWritten(b, Z, k, P, w);
    AtConcat(b, |P|, SrvHead(rd), CharString(rd.target));
    SrvHeadRead(b, |P|, rd);
    TargetRead(b, |P| + 6, rd.target);
    var target := rd.target + [DOT];
    assert |target| >= 2 ==> target[..|target| - 2] == rd.target[..|rd.target| - 1];
  }

  lemma SrvHeadRead(b: seq<byte>, p: nat, rd: RData)
    requires rd.Srv? && RDataOk(rd) && At(b, p, SrvHead(rd))
    ensures DecodeSrvHead(b, p) == Parsed((rd.priority, rd.weight, rd.port), p + 6)
  {
    AtConcat(b, p, U16(rd.priority) + U16(rd.weight), U16(rd.port));
    AtConcat(b, p, U16(rd.priority), U16(rd.weight));
    Field16(b, p, rd.priority);
    Field16(b, p + 2, rd.weight);
    Field16(b, p + 4, rd.port);
  }

  /** RDATA written behind `P` is read back exactly when every compression pointer in it survived,
      whatever field before `P` was patched in between. */
  lemma RDataComesBack(b: seq<byte>, Z: seq<byte>, k: int, P: seq<byte>, rd: RData)
    requires RDataOk(rd) && Stage(b, Z, k) && AppendRData(P, rd) == Ok(Z)
    requires k + 2 <= |P| && |Z| <= 0x4000
    ensures ReadBack(b, Z, P, rd)
  {
    match rd
    case NameData(_) => NameDataComesBack(b, Z, k, P, rd);
    case HInfo(_, _) => HInfoWritten(b, Z, k, P, rd);
    case MInfo(_, _) => MInfoComesBack(b, Z, k, P, rd);
    case Mx(_, _) => MxComesBack(b, Z, k, P, rd);
    case Soa(_, _, _) => SoaComesBack(b, Z, k, P, rd);
    case Txt(_) => TxtComesBack(b, Z, k, P, rd);
    case Naptr(_, _, _, _, _, _) => NaptrComesBack(b, Z, k, P, rd);
    case Srv(_, _, _, _) => SrvLost(b, Z, k, P, rd);
    case Wks(_, _, _) =>
    case _ => OctetsComeBack(b, Z, k, P, rd);
  }

  // ---------- records ----------

  /** The buffer when RDLENGTH still is zero and the RDATA is written. */
  function BeforePatch(P: seq<byte>, rr: RR): (Q: seq<byte>)
    requires RecordOk(rr) && rr.rdata.Some?
    ensures AppendHead(P, rr).value + U16(0) <= Q
  {
    AppendRData(AppendHead(P, rr).value + U16(0), rr.rdata.value).value
  }

  /** The RDATA takes some room and its compression pointers survived the patch. */
  predicate RecordIntact(b: seq<byte>, P: seq<byte>, rr: RR)
    requires RecordOk(rr)
  {
    rr.rdata.Some? ==>
      var start := AppendHead(P, rr).value + U16(0);
      |BeforePatch(P, rr)| > |start| && RDataIntact(b, start, rr.rdata.value)
  }

  lemma FixedComesBack(b: seq<byte>, p: nat, f: Fixed)
    requires At(b, p, U16(f.rtype) + U16(f.rclass) + U32(f.ttl)) && At(b, p + 8, U16(f.size))
    requires f.rtype < 0x1_0000 && f.rclass < 0x1_0000 && f.size < 0x1_0000
    ensures DecodeFixed(b, p) == Parsed(f, p + 10)
  {
    AtConcat(b, p, U16(f.rtype) + U16(f.rclass), U32(f.ttl));
    AtConcat(b, p, U16(f.rtype), U16(f.rclass));
    Field16(b, p, f.rtype);
    Field16(b, p + 2, f.rclass);
    Field32(b, p + 4, f.ttl);
    Field16(b, p + 8, f.size);
  }

  /** Patching the length field keeps the buffer a stage of the encoding. */
  lemma PatchedStage(b: seq<byte>, H: seq<byte>, Q: seq<byte>, n: nat)
    requires H + U16(0) <= Q && Patch(Q, |H|, n) <= b
    ensures Stage(b, Q, |H|) && At(b, |H|, U16(n)) && H <= b
  {
    var Z, k := Patch(Q, |H|, n), |H|;
    assert Q[k] == (H + U16(0))[k] == 0 && Q[k + 1] == (H + U16(0))[k + 1] == 0;
    forall i | 0 <= i < |Q| && i != k && i != k + 1 ensures b[i] == Q[i] {
      assert b[i] == Z[i];
    }
    assert b[k..k + 2] == Z[k..k + 2] == U16(n);
    assert H == Q[..k] == Z[..k];
  }

  /** What reading a record must give, in the manner of `Faithful`. */
  predicate RecordReadBack(b: seq<byte>, P: seq<byte>, rr: RR)
    requires RecordOk(rr) && |P| <= |b|
  {
    var r := DecodeRecord(b, |P|);
    if RecordIntact(b, P, rr) then r == Parsed(rr, |AppendRecord(P, rr).value|) else r.Failed? || r.value != rr
  }

  lemma HeadComesBack(b: seq<byte>, P: seq<byte>, rr: RR, size: uint)
    requires RecordOk(rr) && AppendHead(P, rr).value + U16(size) <= b && size < 0x1_0000
    requires |AppendHead(P, rr).value| <= 0x4000
    ensures var P1, H := AppendName(P, rr.name, true).value, AppendHead(P, rr).value;
      && DecodeName(b, |P|, [], true) == Parsed(rr.name, |P1|)
      && DecodeFixed(b, |P1|) == Parsed(Fixed(rr.rtype, rr.rclass, rr.ttl, size), |H| + 2)
  {
    var P1, H := AppendName(P, rr.name, true).value, AppendHead(P, rr).value;
    var w := U16(rr.rtype) + U16(rr.rclass) + U32(rr.ttl);
    assert H == P1 + w;
    assert b[|H|..|H| + 2] == (H + U16(size))[|H|..] == U16(size);
    assert b[|P1|..|H|] == H[|P1|..] == w;
    FixedComesBack(b, |P1|, Fixed(rr.rtype, rr.rclass, rr.ttl, size));
    assert P1 <= b;
    NameReadBack(b, P, rr.name);
  }

  lemma BareRecordComesBack(b: seq<byte>, P: seq<byte>, rr: RR)
    requires RecordOk(rr) && rr.rdata.None? && AppendRecord(P, rr).value <= b
    requires |AppendRecord(P, rr).value| <= 0x4000
    ensures RecordReadBack(b, P, rr)
  {
    HeadComesBack(b, P, rr, 0);
  }

  lemma BodyComesBack(b: seq<byte>, H: seq<byte>, Q: seq<byte>, rd: RData, f: Fixed)
    requires RDataOk(rd) && KindOf(f.rtype) == KindOfData(rd)
    requires AppendRData(H + U16(0), rd) == Ok(Q) && |Q| <= 0x4000
    requires f.size == |Q| - |H| - 2 && Patch(Q, |H|, f.size) <= b
    ensures var r := DecodeBody(b, |H| + 2, f);
      if f.size > 0 && RDataIntact(b, H + U16(0), rd) then r == Parsed(Some(rd), |Q|)
      else r.Failed? || r.value != Some(rd)
  {
    if f.size > 0 {
      PatchedStage(b, H, Q, f.size);
      RDataComesBack(b, Q, |H|, H + U16(0), rd);
    }
  }

  lemma FullRecordComesBack(b: seq<byte>, P: seq<byte>, rr: RR)
    requires RecordOk(rr) && rr.rdata.Some? && AppendRecord(P, rr).value <= b
    requires |AppendRecord(P, rr).value| <= 0x4000
    ensures RecordReadBack(b, P, rr)
  {
    hide DecodeName, DecodeFixed, DecodeBody, AppendName, RDataIntact, NameOk, RDataOk;
    var H, Q := AppendHead(P, rr).value, BeforePatch(P, rr);
    var size := |Q| - |H| - 2;
    assert Patch(Q, |H|, size) == AppendRecord(P, rr).value;
    PatchedStage(b, H, Q, size);
    assert H + U16(size) <= b by {
      assert b[..|H| + 2] == b[..|H|] + b[|H|..|H| + 2];
    }
    HeadComesBack(b, P, rr, size);
    BodyComesBack(b, H, Q, rr.rdata.value, Fixed(rr.rtype, rr.rclass, rr.ttl, size));
  }

  /** A record is read back exactly when its RDATA takes some room and no pointer inside it was
      damaged by patching the length field or ends the buffer. */
  lemma RecordComesBack(b: seq<byte>, P: seq<byte>, rr: RR)
    requires RecordOk(rr) && AppendRecord(P, rr).value <= b && |AppendRecord(P, rr).value| <= 0x4000
    ensures RecordReadBack(b, P, rr)
  {
    if rr.rdata.Some? {
      FullRecordComesBack(b, P, rr);
    } else {
      BareRecordComesBack(b, P, rr);
    }
  }
}
