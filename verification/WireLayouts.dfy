/** Where the encoder puts each field of a question, a record and its RDATA, in terms of the octets that it
    leaves, also where the decoder does not read them back. */
module WireLayouts {
  import opened Octets
  import opened Names
  import opened NameText
  import opened Records
  import opened WireNames
  import opened WireRecords

  /** The length of a string is cut to eight bits. */
  predicate StringLaidOut(Q: seq<byte>, p: nat, s: seq<byte>) {
    p + 1 + |s| <= |Q| && Q[p] == |s| % 256 && Q[p + 1..p + 1 + |s|] == s
  }

  predicate StringsLaidOut(Q: seq<byte>, p: nat, texts: seq<seq<byte>>, end: nat)
    decreases |texts|
  {
    if texts == [] then p == end
    else StringLaidOut(Q, p, texts[0]) && StringsLaidOut(Q, p + 1 + |texts[0]|, texts[1..], end)
  }

  lemma NumberLaidOut16(Q: seq<byte>, P: seq<byte>, n: nat)
    requires P + U16(n) <= Q
    ensures Number16(Q, |P|) == n % 65536
  {
    hide U16;
    LowOctets(n);
    assert Q[|P|] == (P + U16(n))[|P|] && Q[|P| + 1] == (P + U16(n))[|P| + 1];
  }

  lemma NumberLaidOut32(Q: seq<byte>, P: seq<byte>, n: nat)
    requires P + U32(n) <= Q && n < 0x1_0000_0000
    ensures Number32(Q, |P|) == n
  {
    Digits(n);
    var w := P + U32(n);
    assert Q[|P|] == w[|P|] && Q[|P| + 1] == w[|P| + 1] && Q[|P| + 2] == w[|P| + 2] && Q[|P| + 3] == w[|P| + 3];
  }

  lemma CharStringLaidOut(Q: seq<byte>, P: seq<byte>, s: seq<byte>)
    requires P + CharString(s) <= Q
    ensures StringLaidOut(Q, |P|, s)
  {
    var w := P + CharString(s);
    assert Q[|P|] == w[|P|];
    assert Q[|P| + 1..|P| + 1 + |s|] == w[|P| + 1..];
  }

  // ---------- names ----------

  /** Length octets and labels. */
  function LabelOctets(ls: seq<Label>): seq<byte>
    requires forall l | l in ls :: |l| <= 63
  {
    if ls == [] then [] else [|ls[0]|] + ls[0] + LabelOctets(ls[1..])
  }

  /** The octets stand in `b` at `t` and end before its last octet. */
  predicate Occurs(b: seq<byte>, w: seq<byte>, t: nat) {
    t + |w| < |b| && b[t..t + |w|] == w
  }

  /** The first `n` labels are written out, because the rest of the name, with `tail` behind it, occurs nowhere
      before each of them. Then comes a zero octet, or a pointer to where the rest first occurs. */
  ghost predicate LabelsLaidOut(P: seq<byte>, ls: seq<Label>, tail: seq<byte>, Q: seq<byte>)
    requires forall l | l in ls :: |l| <= 63
    decreases |ls|
  {
    if ls == [] then Q == P + [0]
    else
      var w := LabelOctets(ls) + tail;
      || (exists t: nat :: Occurs(P, w, t) && (forall u: nat | u < t :: !Occurs(P, w, u)) && Q == P + PointerTo(t))
      || ((forall t: nat :: !Occurs(P, w, t)) && LabelsLaidOut(P + [|ls[0]|] + ls[0], ls[1..], tail, Q))
  }

  /** Two high bits that are ones, and the offset if it has fourteen bits. */
  function PointerTo(t: nat): seq<byte> {
    [(192 + t / 256) % 256, t % 256]
  }

  /** The labels of a text, without the dot at its end. */
  predicate AreLabelsOf(ls: seq<Label>, t: seq<byte>) {
    && ls != [] && (forall l | l in ls :: |l| <= 63 && 46 !in l)
    && t == Spelling(ls) + if t != [] && t[|t| - 1] == 46 then [46] else []
  }

  /** What stands behind the labels in the octets that are looked for: nothing if there is a dot at the end. */
  function TailOf(t: seq<byte>): seq<byte> {
    if t != [] && t[|t| - 1] == 46 then [] else [0]
  }

  lemma {:induction false} FlatIsOctets(ls: seq<Label>)
    requires ShortLabels(ls)
    ensures (forall l | l in ls :: |l| <= 63) && Flat(ls) == LabelOctets(ls)
  {
    if ls != [] {
      FlatIsOctets(ls[1..]);
      assert forall l | l in ls :: l == ls[0] || l in ls[1..];
    }
  }

  lemma PointerOctets(t: nat)
    ensures U16(0xC000 + t) == PointerTo(t)
  {
  }

  lemma MatchIsFirst(P: seq<byte>, w: seq<byte>)
    ensures match FirstMatch(P, w)
            case Some(t) => Occurs(P, w, t) && forall u: nat | u < t :: !Occurs(P, w, u)
            case None => forall t: nat :: !Occurs(P, w, t)
  {
    assert forall t: nat :: Occurs(P, w, t) <==> At(P, t, w) && t + |w| < |P|;
  }

  lemma {:induction false} LabelsAreLaidOut(P: seq<byte>, ls: seq<Label>, tail: seq<byte>)
    requires ShortLabels(ls)
    ensures (forall l | l in ls :: |l| <= 63) && LabelsLaidOut(P, ls, tail, AppendLabels(P, ls, tail))
    decreases |ls|
  {
    hide FirstMatch, U16, Occurs;
    FlatIsOctets(ls);
    if ls != [] {
      MatchIsFirst(P, Flat(ls) + tail);
      match FirstMatch(P, Flat(ls) + tail)
      case Some(t) => PointerOctets(t);
      case None =>
        LabelsAreLaidOut(P + LabelWire(ls[0]), ls[1..], tail);
        assert P + LabelWire(ls[0]) == P + [|ls[0]|] + ls[0];
    }
  }

  lemma {:induction false} JoinIsSpelling(ls: seq<Label>)
    ensures Join(ls) == Spelling(ls)
  {
    if |ls| > 1 {
      JoinIsSpelling(ls[1..]);
    }
  }

  lemma {:induction false} NoDotInLabels(t: seq<byte>)
    ensures forall l | l in Split(t) :: 46 !in l
  {
    if t != [] {
      NoDotInLabels(t[..|t| - 1]);
      var ls, c := Split(t[..|t| - 1]), t[|t| - 1];
      assert ls[|ls| - 1] in ls;
      forall l | l in Split(t) ensures 46 !in l {
        if c == DOT {
          assert l in ls || l == [];
        } else {
          assert l in ls || l == ls[|ls| - 1] + [c];
        }
      }
    }
  }

  lemma LabelsOfText(t: seq<byte>)
    requires ShortLabels(ScannedLabels(t)) && t != []
    ensures AreLabelsOf(ScannedLabels(t), t) && TailOf(t) == Terminator(t)
  {
    hide Split, Join, Spelling;
    var s := if EndsWithDot(t) then t[..|t| - 1] else t;
    JoinSplit(s);
    JoinIsSpelling(Split(s));
    NoDotInLabels(s);
    FlatIsOctets(Split(s));
  }

  /** The labels of the text, in the compressed form or one behind another and then the tail. */
  ghost predicate NameLaidOut(P: seq<byte>, t: seq<byte>, compress: bool, Q: seq<byte>) {
    if t == [] then Q == P + [0]
    else exists ls: seq<Label> ::
      && AreLabelsOf(ls, t)
      && if compress then LabelsLaidOut(P, ls, TailOf(t), Q) else Q == P + LabelOctets(ls) + TailOf(t)
  }

  /** Every name that can be written. */
  lemma NameIsLaidOut(P: seq<byte>, t: seq<byte>, compress: bool, Q: seq<byte>)
    requires AppendName(P, t, compress) == Ok(Q)
    ensures NameLaidOut(P, t, compress, Q)
  {
    hide AppendLabels, Split, Flat, AreLabelsOf, LabelsLaidOut;
    if t != [] {
      var ls := ScannedLabels(t);
      LabelsOfText(t);
      FlatIsOctets(ls);
      LabelsAreLaidOut(P, ls, Terminator(t));
      assert P + (Flat(ls) + Terminator(t)) == P + Flat(ls) + Terminator(t);
    }
  }

  // ---------- RDATA ----------

  /** A prefix of what was appended. */
  lemma FirstPart(Q: seq<byte>, P: seq<byte>, x: seq<byte>, y: seq<byte>)
    requires P + (x + y) <= Q
    ensures P + x <= Q && P + x + y <= Q
  {
    assert P + (x + y) == P + x + y;
    assert P + x == (P + x + y)[..|P + x|];
  }

  ghost predicate TwoNamesLaidOut(P: seq<byte>, x: seq<byte>, y: seq<byte>, Q: seq<byte>) {
    exists N: seq<byte> :: AppendName(P, x, true) == Ok(N) && AppendName(N, y, true) == Ok(Q)
  }

  predicate NaptrLaidOut(P: seq<byte>, rd: RData, Q: seq<byte>)
    requires rd.Naptr?
  {
    var s1 := |P| + 4;
    var s2 := s1 + 1 + |rd.flags|;
    var s3 := s2 + 1 + |rd.services|;
    var n := s3 + 1 + |rd.regExp|;
    && n <= |Q| && Number16(Q, |P|) == rd.order % 65536 && Number16(Q, |P| + 2) == rd.naptrPreference % 65536
    && StringLaidOut(Q, s1, rd.flags) && StringLaidOut(Q, s2, rd.services) && StringLaidOut(Q, s3, rd.regExp)
    && AppendName(Q[..n], rd.replacement, false) == Ok(Q)
  }

  predicate SrvLaidOut(P: seq<byte>, rd: RData, Q: seq<byte>)
    requires rd.Srv?
  {
    && |Q| == |P| + 7 + |rd.target|
    && Number16(Q, |P|) == rd.priority % 65536 && Number16(Q, |P| + 2) == rd.weight % 65536
    && Number16(Q, |P| + 4) == rd.port % 65536 && StringLaidOut(Q, |P| + 6, rd.target)
  }

  /** Where the fields of the RDATA stand in `Q` when it was written behind `P`. */
  ghost predicate RDataLaidOut(P: seq<byte>, rd: RData, Q: seq<byte>) {
    && P <= Q
    && match rd
       case NameData(name) => AppendName(P, name, true) == Ok(Q)
       case HInfo(cpu, os) =>
         && |Q| == |P| + 2 + |cpu| + |os|
         && StringLaidOut(Q, |P|, cpu) && StringLaidOut(Q, |P| + 1 + |cpu|, os)
       case MInfo(x, y) => TwoNamesLaidOut(P, x, y, Q)
       case Mx(preference, exchange) =>
         && |Q| >= |P| + 2 && Number16(Q, |P|) == preference % 65536
         && AppendName(Q[..|P| + 2], exchange, true) == Ok(Q)
       case Soa(x, y, timers) =>
         && |Q| >= |P| + 20 && TwoNamesLaidOut(P, x, y, Q[..|Q| - 20]) && TimersStand(Q, |Q| - 20, timers)
       case Txt(texts) => StringsLaidOut(Q, |P|, texts, |Q|)
       case Address4(addr) => Q[|P|..] == addr
       case Address6(addr) => Q[|P|..] == addr
       case Naptr(_, _, _, _, _, _) => NaptrLaidOut(P, rd, Q)
       case Srv(_, _, _, _) => SrvLaidOut(P, rd, Q)
       case Wks(addr, protocol, bitmap) =>
         && |Q| == |P| + 5 + |bitmap| && Q[|P|..|P| + 4] == addr && Q[|P| + 4] == protocol % 256
         && Q[|P| + 5..] == bitmap
       case Raw(data) => Q[|P|..] == data
  }

  lemma TimersLaidOut(P: seq<byte>, t: Timers)
    ensures TimersStand(P + TimerOctets(t), |P|, t)
  {
    hide U32, Number32;
    var Q := P + TimerOctets(t);
    var a, b, c, d, e := U32(t.serial), U32(t.refresh), U32(t.retry), U32(t.expire), U32(t.minimum);
    assert Q == P + a + b + c + d + e;
    assert P + a <= Q && P + a + b <= Q && P + a + b + c <= Q && P + a + b + c + d <= Q;
    LengthOf32(t.serial);
    LengthOf32(t.refresh);
    LengthOf32(t.retry);
    LengthOf32(t.expire);
    LengthOf32(t.minimum);
    NumberLaidOut32(Q, P, t.serial);
    NumberLaidOut32(Q, P + a, t.refresh);
    NumberLaidOut32(Q, P + a + b, t.retry);
    NumberLaidOut32(Q, P + a + b + c, t.expire);
    NumberLaidOut32(Q, P + a + b + c + d, t.minimum);
  }

  lemma LengthOf32(n: nat)
    ensures |U32(n)| == 4
  {
  }

  lemma {:induction false} TextsLaidOut(P: seq<byte>, texts: seq<seq<byte>>)
    ensures var Q := AppendTexts(P, texts); StringsLaidOut(Q, |P|, texts, |Q|)
    decreases |texts|
  {
    if texts != [] {
      var P1 := P + CharString(texts[0]);
      TextsLaidOut(P1, texts[1..]);
      CharStringLaidOut(AppendTexts(P1, texts[1..]), P, texts[0]);
    }
  }

  lemma HInfoIsLaidOut(P: seq<byte>, cpu: seq<byte>, os: seq<byte>)
    ensures RDataLaidOut(P, HInfo(cpu, os), P + (CharString(cpu) + CharString(os)))
  {
    var Q := P + (CharString(cpu) + CharString(os));
    FirstPart(Q, P, CharString(cpu), CharString(os));
    CharStringLaidOut(Q, P, cpu);
    CharStringLaidOut(Q, P + CharString(cpu), os);
  }

  lemma SrvIsLaidOut(P: seq<byte>, rd: RData)
    requires rd.Srv?
    ensures SrvLaidOut(P, rd, P + (SrvHead(rd) + CharString(rd.target)))
  {
    var Q, h := P + (SrvHead(rd) + CharString(rd.target)), U16(rd.priority) + U16(rd.weight);
    FirstPart(Q, P, SrvHead(rd), CharString(rd.target));
    FirstPart(Q, P, h, U16(rd.port));
    FirstPart(Q, P, U16(rd.priority), U16(rd.weight));
    NumberLaidOut16(Q, P, rd.priority);
    NumberLaidOut16(Q, P + U16(rd.priority), rd.weight);
    NumberLaidOut16(Q, P + h, rd.port);
    CharStringLaidOut(Q, P + SrvHead(rd), rd.target);
  }

  lemma NaptrIsLaidOut(P: seq<byte>, rd: RData, Q: seq<byte>)
    requires rd.Naptr? && AppendName(P + NaptrHead(rd), rd.replacement, false) == Ok(Q)
    ensures NaptrLaidOut(P, rd, Q)
  {
    hide AppendName, U16, Number16, CharString, StringLaidOut;
    var a, b := U16(rd.order), U16(rd.naptrPreference);
    var x, y, z := CharString(rd.flags), CharString(rd.services), CharString(rd.regExp);
    assert P + NaptrHead(rd) == P + a + b + x + y + z;
    assert P + NaptrHead(rd) <= Q;
    assert P + a <= Q && P + a + b <= Q && P + a + b + x <= Q && P + a + b + x + y <= Q;
    HeadLengths(rd);
    NumberLaidOut16(Q, P, rd.order);
    NumberLaidOut16(Q, P + a, rd.naptrPreference);
    CharStringLaidOut(Q, P + a + b, rd.flags);
    CharStringLaidOut(Q, P + a + b + x, rd.services);
    CharStringLaidOut(Q, P + a + b + x + y, rd.regExp);
    assert Q[..|P + NaptrHead(rd)|] == P + NaptrHead(rd);
  }

  lemma HeadLengths(rd: RData)
    requires rd.Naptr?
    ensures |U16(rd.order)| == 2 && |U16(rd.naptrPreference)| == 2
    ensures |CharString(rd.flags)| == 1 + |rd.flags| && |CharString(rd.services)| == 1 + |rd.services|
    ensures |CharString(rd.regExp)| == 1 + |rd.regExp|
  {
  }

  /** RDATA of every form. */
  lemma RDataIsLaidOut(P: seq<byte>, rd: RData, Q: seq<byte>)
    requires AppendRData(P, rd) == Ok(Q)
    ensures RDataLaidOut(P, rd, Q)
  {
    hide AppendName, AppendTexts, NaptrLaidOut, SrvLaidOut, StringsLaidOut, TimersStand, U16, Number16;
    match rd
    case HInfo(cpu, os) => HInfoIsLaidOut(P, cpu, os);
    case Mx(preference, exchange) =>
      MxIsLaidOut(P, preference, exchange, Q);
    case Soa(x, y, timers) =>
      var P2 := Q[..|Q| - |TimerOctets(timers)|];
      TimersTake20(timers);
      TimersLaidOut(P2, timers);
    case Txt(texts) => TextsLaidOut(P, texts);
    case Naptr(_, _, _, _, _, _) => NaptrIsLaidOut(P, rd, Q);
    case Srv(_, _, _, _) => SrvIsLaidOut(P, rd);
    case _ =>
  }

  lemma TimersTake20(t: Timers)
    ensures |TimerOctets(t)| == 20
  {
  }

  lemma MxIsLaidOut(P: seq<byte>, preference: uint, exchange: seq<byte>, Q: seq<byte>)
    requires AppendName(P + U16(preference), exchange, true) == Ok(Q)
    ensures RDataLaidOut(P, Mx(preference, exchange), Q)
  {
    hide AppendName, Number16;
    assert Q[..|P| + 2] == P + U16(preference);
    NumberLaidOut16(Q, P, preference);
    assert P <= Q;
  }

  /** A question: its name, then its type, then its class. */
  lemma QuestionIsLaidOut(P: seq<byte>, x: Question, Q: seq<byte>)
    requires AppendQuestion(P, x) == Ok(Q)
    ensures |Q| >= |P| + 5 && AppendName(P, x.qName, true) == Ok(Q[..|Q| - 4])
    ensures Number16(Q, |Q| - 4) == x.qType % 65536 && Number16(Q, |Q| - 2) == x.qClass % 65536
  {
    hide AppendName, Number16;
    var N := AppendName(P, x.qName, true).value;
    assert Q[..|Q| - 4] == N;
    assert N + U16(x.qType) <= Q;
    NumberLaidOut16(Q, N, x.qType);
    NumberLaidOut16(Q, N + U16(x.qType), x.qClass);
  }

  /** A record whose name ends at `n`: type, class, TTL, the size of the RDATA cut to sixteen bits, and the
      RDATA as it is written behind a size of zero. */
  ghost predicate RecordLaidOut(P: seq<byte>, rr: RR, n: nat, Q: seq<byte>) {
    && n + 10 <= |Q| && AppendName(P, rr.name, true) == Ok(Q[..n])
    && Number16(Q, n) == rr.rtype % 65536 && Number16(Q, n + 2) == rr.rclass % 65536
    && Number32(Q, n + 4) == rr.ttl && Number16(Q, n + 8) == (|Q| - n - 10) % 65536
    && (rr.rdata == None ==> |Q| == n + 10)
    && (rr.rdata.Some? ==> RDataLaidOut(Q[..n + 8] + [0, 0], rr.rdata.value, Q[..n + 8] + [0, 0] + Q[n + 10..]))
  }

  lemma HeadIsLaidOut(P: seq<byte>, rr: RR, H: seq<byte>)
    requires AppendHead(P, rr) == Ok(H)
    ensures var n := |H| - 8;
      && n >= 0 && AppendName(P, rr.name, true) == Ok(H[..n])
      && Number16(H, n) == rr.rtype % 65536 && Number16(H, n + 2) == rr.rclass % 65536 && Number32(H, n + 4) == rr.ttl
  {
    hide AppendName, Number16, Number32;
    var N := AppendName(P, rr.name, true).value;
    var a, b := U16(rr.rtype), U16(rr.rclass);
    assert H == N + a + b + U32(rr.ttl) && H[..|H| - 8] == N;
    assert N + a <= H && N + a + b <= H;
    NumberLaidOut16(H, N, rr.rtype);
    NumberLaidOut16(H, N + a, rr.rclass);
    NumberLaidOut32(H, N + a + b, rr.ttl);
  }

  lemma RecordIsLaidOut(P: seq<byte>, rr: RR, Q: seq<byte>) returns (n: nat)
    requires AppendRecord(P, rr) == Ok(Q)
    ensures RecordLaidOut(P, rr, n, Q)
  {
    hide AppendName, AppendRData, AppendHead, Number16, Number32, RDataLaidOut, U16;
    var H := AppendHead(P, rr).value;
    n := |H| - 8;
    HeadIsLaidOut(P, rr, H);
    SameHead(H, Q);
    match rr.rdata
    case None => NoBody(H, Q);
    case Some(rd) =>
      var R := AppendRData(H + U16(0), rd).value;
      RDataIsLaidOut(H + U16(0), rd, R);
      PatchedBody(H, R, Q);
  }

  lemma SameHead(H: seq<byte>, Q: seq<byte>)
    requires 8 <= |H| && H <= Q
    ensures var n := |H| - 8;
      && Q[..n] == H[..n] && Number16(Q, n) == Number16(H, n) && Number16(Q, n + 2) == Number16(H, n + 2)
      && Number32(Q, n + 4) == Number32(H, n + 4) && Q[..n + 8] == H
  {
    assert forall i | 0 <= i < |H| :: Q[i] == H[i];
  }

  lemma NoBody(H: seq<byte>, Q: seq<byte>)
    requires Q == H + U16(0)
    ensures |Q| == |H| + 2 && Number16(Q, |H|) == 0
  {
  }

  lemma PatchedBody(H: seq<byte>, R: seq<byte>, Q: seq<byte>)
    requires H + U16(0) <= R && Q == Patch(R, |H|, |R| - |H| - 2)
    ensures |Q| >= |H| + 2 && Number16(Q, |H|) == (|Q| - |H| - 2) % 65536
    ensures Q[..|H|] + [0, 0] == H + U16(0) && Q[..|H|] + [0, 0] + Q[|H| + 2..] == R
  {
    assert U16(0) == [0, 0];
    assert R[..|H| + 2] == H + [0, 0];
    assert Q[..|H|] == R[..|H|] == H;
    assert R == R[..|H| + 2] + R[|H| + 2..];
    NumberLaidOut16(Q, Q[..|H|], |R| - |H| - 2);
  }
}
