/** When overwriting RDLENGTH is harmless, and a record for which it is not. */
module BackPatching {
  import opened Octets
  import opened Names
  import opened NameText
  import opened NameRoundTrip
  import opened Records
  import opened RecordRoundTrip

  predicate ZeroFree(t: seq<byte>) {
    forall i | 0 <= i < |t| :: t[i] != 0
  }

  predicate ZeroFreeLabels(ls: seq<Label>) {
    forall i | 0 <= i < |ls| :: ZeroFree(ls[i])
  }

  lemma {:induction false} SplitZeroFree(t: seq<byte>)
    requires ZeroFree(t)
    ensures ZeroFreeLabels(Split(t))
  {
    if t != [] {
      SplitZeroFree(t[..|t| - 1]);
    }
  }

  lemma {:induction false} FlatZeroFree(ls: seq<Label>)
    requires ValidLabels(ls) && ZeroFreeLabels(ls)
    ensures ZeroFree(Flat(ls))
    decreases |ls|
  {
    if ls != [] {
      FlatZeroFree(ls[1..]);
    }
  }

  /** A region whose only zero is its last octet has no room for the low octet of a zero field: the
      region would have to begin there or to hold the high octet as well. */
  lemma RegionAvoidsPatch(b: seq<byte>, P: seq<byte>, k: int, t: nat, x: seq<byte>)
    requires Stage(b, P, k) && (0 <= k < |P| ==> b[k] == 0)
    requires x != [] && ZeroFree(x) && At(P, t, x + [0])
    ensures At(b, t, x + [0])
  {
    var w := x + [0];
    forall i | 0 <= i < |w| ensures b[t + i] == w[i] {
      assert P[t + i] == P[t..t + |w|][i] == w[i];
      assert i > 0 ==> P[t + (i - 1)] == P[t..t + |w|][i - 1] == x[i - 1];
    }
    assert b[t..t + |w|] == w;
  }

  /** With zero-free labels and the high octet unchanged, a pointer can only fail by ending the
      buffer. */
  lemma NameSurvives(b: seq<byte>, Z: seq<byte>, k: int, P: seq<byte>, text: seq<byte>)
    requires NameOk(text) && ZeroFree(text) && AppendName(P, text, true).value <= Z
    requires Stage(b, Z, k) && k + 2 <= |P| && (0 <= k < |Z| ==> b[k] == 0)
    ensures NameIntact(b, P, text, true)
       <==> (NameEndsInPointer(P, text) ==> |AppendName(P, text, true).value| < |b|)
  {
    if NameEndsInPointer(P, text) {
      ScannedText(text);
      SplitZeroFree(text);
      var ls := ScannedLabels(text);
      GreedyCompression(P, ls);
      PointerSurvives(b, Z, k, P, ls);
    }
  }

  lemma PointerSurvives(b: seq<byte>, Z: seq<byte>, k: int, P: seq<byte>, ls: seq<Label>)
    requires ValidLabels(ls) && ZeroFreeLabels(ls) && EmitsPointer(P, ls)
    requires P + Flat(WrittenLabels(P, ls)) <= Z
    requires SuffixMatch(P, ls, Cut(P, ls)) == Some(Target(P, ls))
    requires Stage(b, Z, k) && k + 2 <= |P| && (0 <= k < |Z| ==> b[k] == 0)
    ensures At(b, Target(P, ls), Flat(ls[Cut(P, ls)..]) + [0])
  {
    var P', ys := P + Flat(WrittenLabels(P, ls)), ls[Cut(P, ls)..];
    OnTheWay(b, Z, k, P, P');
    FlatZeroFree(ys);
    FlatSize(ys);
    RegionAvoidsPatch(b, P', k, Target(P, ls), Flat(ys));
  }

  // ---------- RDATA ----------

  /** The names that are written with compression inside the RDATA hold no zero octet. */
  predicate ZeroFreeNames(rd: RData) {
    match rd
    case NameData(name) => ZeroFree(name)
    case MInfo(x, y) => ZeroFree(x) && ZeroFree(y)
    case Mx(_, exchange) => ZeroFree(exchange)
    case Soa(x, y, _) => ZeroFree(x) && ZeroFree(y)
    case _ => true
  }

  predicate HasCompressibleName(rd: RData) {
    rd.NameData? || rd.MInfo? || rd.Mx? || rd.Soa?
  }

  /** The very last octets of the RDATA are a compression pointer. */
  predicate EndsInPointer(P: seq<byte>, rd: RData) {
    match rd
    case NameData(name) => NameEndsInPointer(P, name)
    case MInfo(x, y) =>
      var r := AppendName(P, x, true); r.Ok? && NameEndsInPointer(r.value, y)
    case Mx(preference, exchange) => NameEndsInPointer(P + U16(preference), exchange)
    case _ => false
  }

  lemma TwoNamesSurvive(b: seq<byte>, Z: seq<byte>, k: int, P: seq<byte>, P1: seq<byte>, x: seq<byte>, y: seq<byte>)
    requires NameOk(x) && NameOk(y) && ZeroFree(x) && ZeroFree(y)
    requires AppendName(P, x, true) == Ok(P1) && AppendName(P1, y, true).value <= Z
    requires Stage(b, Z, k) && k + 2 <= |P| && (0 <= k < |Z| ==> b[k] == 0)
    ensures NameIntact(b, P, x, true) && NameIntact(b, P1, y, true)
       <==> (NameEndsInPointer(P1, y) ==> |AppendName(P1, y, true).value| < |b|)
  {
    NameSurvives(b, Z, k, P, x);
    NameSurvives(b, Z, k, P1, y);
    assert |P1| < |AppendName(P1, y, true).value| <= |b|;
  }

  lemma RDataSurvives(b: seq<byte>, Z: seq<byte>, k: int, P: seq<byte>, rd: RData)
    requires RDataOk(rd) && ZeroFreeNames(rd) && AppendRData(P, rd) == Ok(Z)
    requires Stage(b, Z, k) && k + 2 <= |P| && (HasCompressibleName(rd) && 0 <= k < |Z| ==> b[k] == 0)
    ensures RDataIntact(b, P, rd) <==> !rd.Srv? && !rd.Wks? && (EndsInPointer(P, rd) ==> |Z| < |b|)
  {
    match rd
    case NameData(name) => NameSurvives(b, Z, k, P, name);
    case MInfo(x, y) => TwoNamesSurvive(b, Z, k, P, AppendName(P, x, true).value, x, y);
    case Mx(preference, exchange) => NameSurvives(b, Z, k, P + U16(preference), exchange);
    case Soa(x, y, timers) =>
      var P1 := AppendName(P, x, true).value;
      TwoNamesSurvive(b, Z, k, P, P1, x, y);
      assert |AppendName(P1, y, true).value| < |Z|;
    case _ =>
  }

  // ---------- records ----------

  /** Only a TXT record without strings and an empty raw record have RDATA without octets. */
  predicate HasOctets(rd: RData) {
    (rd.Txt? ==> rd.texts != []) && (rd.Raw? ==> rd.data != [])
  }

  lemma HasOctetsExact(P: seq<byte>, rd: RData)
    requires RDataOk(rd)
    ensures HasOctets(rd) <==> |AppendRData(P, rd).value| > |P|
  {
    if rd.Txt? && rd.texts != [] {
      assert P + CharString(rd.texts[0]) <= AppendTexts(P, rd.texts);
    }
  }

  /** RDATA with octets that the decoder reads in the form in which it was written: not SRV, of which the
      last character is lost, nor WKS, which is read as a plain address. */
  predicate Readable(rd: RData) {
    HasOctets(rd) && !rd.Srv? && !rd.Wks?
  }

  /** What a caller can check before the call: names without zero octets, and RDATA with compressible
      names under 256 octets, so that patching leaves the high octet zero. */
  predicate PatchSafe(P: seq<byte>, rr: RR)
    requires RecordOk(rr)
  {
    rr.rdata.Some? ==>
      && ZeroFreeNames(rr.rdata.value)
      && (HasCompressibleName(rr.rdata.value) ==>
            |BeforePatch(P, rr)| - |AppendHead(P, rr).value| - 2 < 0x100)
  }

  predicate RecordEndsInPointer(P: seq<byte>, rr: RR)
    requires RecordOk(rr)
  {
    rr.rdata.Some? && EndsInPointer(AppendHead(P, rr).value + U16(0), rr.rdata.value)
  }

  lemma BodySurvives(b: seq<byte>, H: seq<byte>, Q: seq<byte>, rd: RData, size: nat)
    requires RDataOk(rd) && ZeroFreeNames(rd) && AppendRData(H + U16(0), rd) == Ok(Q)
    requires size == |Q| - |H| - 2 && (HasCompressibleName(rd) ==> size < 0x100)
    requires Patch(Q, |H|, size) <= b
    ensures |Q| > |H| + 2 && RDataIntact(b, H + U16(0), rd)
       <==> Readable(rd) && (EndsInPointer(H + U16(0), rd) ==> |Q| < |b|)
  {
    PatchedStage(b, H, Q, size);
    HighOctet(b, |H|, size);
    RDataSurvives(b, Q, |H|, H + U16(0), rd);
    HasOctetsExact(H + U16(0), rd);
  }

  lemma HighOctet(b: seq<byte>, k: nat, size: nat)
    requires At(b, k, U16(size))
    ensures size < 0x100 ==> b[k] == 0
  {
    assert b[k] == b[k..k + 2][0];
  }

  lemma PatchIsHarmless(b: seq<byte>, P: seq<byte>, rr: RR)
    requires RecordOk(rr) && PatchSafe(P, rr) && AppendRecord(P, rr).value <= b
    ensures RecordIntact(b, P, rr) <==>
      && (rr.rdata.Some? ==> Readable(rr.rdata.value))
      && (RecordEndsInPointer(P, rr) ==> |AppendRecord(P, rr).value| < |b|)
  {
    if rr.rdata.Some? {
      var H, Q := AppendHead(P, rr).value, BeforePatch(P, rr);
      BodySurvives(b, H, Q, rr.rdata.value, |Q| - |H| - 2);
    }
  }

  /** Back-patching is harmless: a record whose names hold no zero octet and whose compressible RDATA
      is under 256 octets decodes to the same record and consumes exactly what was written, unless
      its RDATA is empty, SRV or WKS, or its last octets are a pointer that ends the buffer. */
  lemma RecordRoundTripExact(b: seq<byte>, P: seq<byte>, rr: RR)
    requires RecordOk(rr) && PatchSafe(P, rr) && AppendRecord(P, rr).value <= b
    requires |AppendRecord(P, rr).value| <= 0x4000
    ensures DecodeRecord(b, |P|) == Parsed(rr, |AppendRecord(P, rr).value|) <==>
      && (rr.rdata.Some? ==> Readable(rr.rdata.value))
      && (RecordEndsInPointer(P, rr) ==> |AppendRecord(P, rr).value| < |b|)
  {
    RecordComesBack(b, P, rr);
    PatchIsHarmless(b, P, rr);
  }

  // ---------- a record that patching damages ----------

  /** An MX record whose exchange is a label of two zero octets: its wire form 2,0,0,0 is found in the
      last TTL octet, the two placeholder octets and the preference. */
  const DAMAGED: RR := RR([], 15, 1, 2, Some(Mx(0, [0, 0])))

  const TWO_ZEROS: seq<byte> := [0, 0]

  /** The head of the damaged record, the placeholder and the preference. */
  const BEFORE_EXCHANGE: seq<byte> := [0, 0, 15, 0, 1, 0, 0, 0, 2, 0, 0, 0, 0]

  lemma {:induction false} SplitWithoutDots(t: seq<byte>)
    requires DOT !in t
    ensures Split(t) == [t]
  {
    if t != [] {
      var s, c := t[..|t| - 1], t[|t| - 1];
      assert t == s + [c];
      assert DOT !in s && c != DOT;
      SplitWithoutDots(s);
      LastOfOne(s, c);
    }
  }

  lemma LastOfOne(s: seq<byte>, c: byte)
    requires Split(s) == [s] && c != DOT
    ensures Split(s + [c]) == [s + [c]]
  {
    assert (s + [c])[..|s + [c]| - 1] == s;
    assert [s][..0] + [s + [c]] == [s + [c]];
  }

  lemma OneLabel(t: seq<byte>)
    requires DOT !in t && 1 <= |t| <= MAX_LABEL_LEN
    ensures ScannedLabels(t) == [t] && ValidLabels([t]) && Flat([t]) + [0] == [|t|] + t + [0]
  {
    SplitWithoutDots(t);
    assert Flat([t][1..]) == [];
  }

  lemma DamagedLabels()
    ensures ScannedLabels(TWO_ZEROS) == [TWO_ZEROS] && ValidLabels([TWO_ZEROS])
    ensures Flat([TWO_ZEROS]) + [0] == [2, 0, 0, 0]
  {
    OneLabel(TWO_ZEROS);
  }

  lemma DamagedPointer()
    ensures FirstMatch(BEFORE_EXCHANGE, [2, 0, 0, 0]) == Some(8)
  {
    var w: seq<byte> := [2, 0, 0, 0];
    assert At(BEFORE_EXCHANGE, 8, w);
    forall t: nat | t < 8 ensures !At(BEFORE_EXCHANGE, t, w) {
      assert BEFORE_EXCHANGE[t..t + 4][0] == BEFORE_EXCHANGE[t] != 2;
    }
  }

  lemma DamagedExchange()
    ensures AppendName(BEFORE_EXCHANGE, TWO_ZEROS, true) == Ok(BEFORE_EXCHANGE + U16(0xC008))
    ensures forall b :: !At(b, 8, [2, 0, 0, 0]) ==> !NameIntact(b, BEFORE_EXCHANGE, TWO_ZEROS, true)
  {
    DamagedLabels();
    DamagedPointer();
    var ls := [TWO_ZEROS];
    assert ls[0..] == ls && BEFORE_EXCHANGE + Flat(ls[..0]) == BEFORE_EXCHANGE;
  }

  lemma DamagedHead()
    ensures AppendHead([], DAMAGED) == Ok([0, 0, 15, 0, 1, 0, 0, 0, 2])
  {
    assert U16(15) == [0, 15] && U16(1) == [0, 1] && U32(2) == [0, 0, 0, 2];
    var none: seq<byte> := [];
    assert none + [0] == [0];
    assert [0] + [0, 15] + [0, 1] + [0, 0, 0, 2] == [0, 0, 15, 0, 1, 0, 0, 0, 2];
  }

  lemma DamagedWire()
    ensures AppendHead([], DAMAGED).value + U16(0) + U16(0) == BEFORE_EXCHANGE
    ensures AppendRecord([], DAMAGED) == Ok(Patch(BEFORE_EXCHANGE + U16(0xC008), 9, 4))
  {
    hide AppendName, AppendHead, Patch, NameIntact, U16;
    DamagedHead();
    TwoPlaceholders();
    DamagedExchange();
    var H := AppendHead([], DAMAGED).value;
    PatchedAfter(H, BEFORE_EXCHANGE + U16(0xC008));
  }

  lemma TwoPlaceholders()
    ensures [0, 0, 15, 0, 1, 0, 0, 0, 2] + U16(0) + U16(0) == BEFORE_EXCHANGE
    ensures |BEFORE_EXCHANGE + U16(0xC008)| == 15
  {
    assert U16(0) == [0, 0];
  }

  lemma PatchedAfter(H: seq<byte>, Q: seq<byte>)
    requires |H| == 9 && |Q| == 15 && AppendName(H + U16(0) + U16(0), TWO_ZEROS, true) == Ok(Q)
    ensures AppendBody(H, DAMAGED.rdata) == Ok(Patch(Q, 9, 4))
  {
    hide AppendName, Patch;
  }

  lemma DamagedIsOk()
    ensures RecordOk(DAMAGED)
  {
    hide Split;
    DamagedLabels();
  }

  lemma PatchedOctet(Q: seq<byte>, k: nat, n: nat, b: seq<byte>)
    requires k + 2 <= |Q| && Patch(Q, k, n) <= b
    ensures b[k + 1] == n % 0x100
  {
    assert b[k + 1] == Patch(Q, k, n)[k + 1];
  }

  /** A label with a zero octet can match the placeholder; after the patch the record reads as
      something else or fails, however much room there is behind it. */
  lemma ZeroOctetLabelIsDamaged(rest: seq<byte>)
    ensures RecordOk(DAMAGED)
    ensures var Z := AppendRecord([], DAMAGED).value;
            DecodeRecord(Z + rest, 0) != Parsed(DAMAGED, |Z|)
  {
    DamagedIsOk();
    DamagedWire();
    var Z := AppendRecord([], DAMAGED).value;
    var b := Z + rest;
    PatchedOctet(BEFORE_EXCHANGE + U16(0xC008), 9, 4, b);
    DamagedPointerLost(b);
    RecordComesBack(b, [], DAMAGED);
  }

  lemma DamagedPointerLost(b: seq<byte>)
    requires |b| > 10 && b[10] == 4 && RecordOk(DAMAGED)
    ensures !RecordIntact(b, [], DAMAGED)
  {
    hide AppendName, NameIntact, At, Patch, AppendRecord;
    RegionLost(b);
    DamagedExchange();
    DamagedWire();
  }

  lemma RegionLost(b: seq<byte>)
    requires |b| > 10 && b[10] == 4
    ensures !At(b, 8, [2, 0, 0, 0])
  {
    if 12 <= |b| {
      assert b[8..12][2] == b[10];
    }
  }
}
