/** Resource records and questions: how their fields are laid out, written and read. */
module Records {
  import opened Octets
  import opened Names

  /** RDATA, one constructor per form that the record classes share. */
  datatype RData =
    | NameData(name: seq<byte>)  // CNAME, MB, MD, MF, MG, MR, NS, PTR
    | HInfo(cpu: seq<byte>, os: seq<byte>)
    | MInfo(rMailBx: seq<byte>, mailBx: seq<byte>)
    | Mx(preference: uint, exchange: seq<byte>)
    | Soa(mName: seq<byte>, rName: seq<byte>, timers: Timers)
    | Txt(texts: seq<seq<byte>>)
    | Address4(addr4: Octets4)
    | Address6(addr6: Octets16)
    | Naptr(order: uint, naptrPreference: uint,
            flags: seq<byte>, services: seq<byte>, regExp: seq<byte>, replacement: seq<byte>)
    | Srv(priority: uint, weight: uint, port: uint, target: seq<byte>)
    | Wks(wksAddr: Octets4, protocol: uint, bitmap: seq<byte>)
    | Raw(data: seq<byte>)

  datatype Timers = Timers(serial: uint, refresh: uint, retry: uint, expire: uint, minimum: uint)

  type Octets4 = s: seq<byte> | |s| == 4 witness [0, 0, 0, 0]
  type Octets16 = s: seq<byte> | |s| == 16 witness [0, 0, 0, 0, 0, 0, 0, 0, 0, 0, 0, 0, 0, 0, 0, 0]

  datatype Kind =
    | NameKind | HInfoKind | MInfoKind | MxKind | SoaKind | TxtKind
    | Address4Kind | Address6Kind | NaptrKind | SrvKind | RawKind

  /** Which form the decoder chooses for a type code; WKS is read as an address. */
  function KindOf(rtype: uint): Kind {
    match rtype
    case 5 => NameKind      // CNAME
    case 13 => HInfoKind
    case 7 => NameKind      // MB
    case 3 => NameKind      // MD
    case 4 => NameKind      // MF
    case 8 => NameKind      // MG
    case 14 => MInfoKind
    case 9 => NameKind      // MR
    case 15 => MxKind
    case 2 => NameKind      // NS
    case 12 => NameKind     // PTR
    case 6 => SoaKind
    case 16 => TxtKind
    case 1 => Address4Kind  // A
    case 11 => Address4Kind // WKS
    case 28 => Address6Kind // AAAA
    case 35 => NaptrKind
    case 33 => SrvKind
    case _ => RawKind
  }

  /** Which form the decoder chooses for the type codes of a class. */
  function KindOfData(rd: RData): Kind {
    match rd
    case NameData(_) => NameKind
    case HInfo(_, _) => HInfoKind
    case MInfo(_, _) => MInfoKind
    case Mx(_, _) => MxKind
    case Soa(_, _, _) => SoaKind
    case Txt(_) => TxtKind
    case Address4(_) => Address4Kind
    case Address6(_) => Address6Kind
    case Naptr(_, _, _, _, _, _) => NaptrKind
    case Srv(_, _, _, _) => SrvKind
    case Wks(_, _, _) => Address4Kind
    case Raw(_) => RawKind
  }

  // ---------- RDATA ----------

  function AppendTexts(P: seq<byte>, texts: seq<seq<byte>>): (Q: seq<byte>)
    ensures P <= Q
    decreases |texts|
  {
    if texts == [] then P else AppendTexts(P + CharString(texts[0]), texts[1..])
  }

  function TimerOctets(t: Timers): seq<byte> {
    U32(t.serial) + U32(t.refresh) + U32(t.retry) + U32(t.expire) + U32(t.minimum)
  }

  function NaptrHead(rd: RData): seq<byte>
    requires rd.Naptr?
  {
    U16(rd.order) + U16(rd.naptrPreference)
    + CharString(rd.flags) + CharString(rd.services) + CharString(rd.regExp)
  }

  function SrvHead(rd: RData): seq<byte>
    requires rd.Srv?
  {
    U16(rd.priority) + U16(rd.weight) + U16(rd.port)
  }

  /** The buffer `P` after the RDATA has been written, as long as there is room. */
  function AppendRData(P: seq<byte>, rd: RData): (r: Result<seq<byte>>)
    ensures r.Ok? ==> P <= r.value
    ensures RDataOk(rd) ==> r.Ok?
  {
    match rd
    case NameData(name) => AppendName(P, name, true)
    case HInfo(cpu, os) => Ok(P + (CharString(cpu) + CharString(os)))
    case MInfo(x, y) => var P1 :- AppendName(P, x, true); AppendName(P1, y, true)
    case Mx(preference, exchange) => AppendName(P + U16(preference), exchange, true)
    case Soa(x, y, timers) =>
      var P1 :- AppendName(P, x, true);
      var P2 :- AppendName(P1, y, true);
      Ok(P2 + TimerOctets(timers))
    case Txt(texts) => Ok(AppendTexts(P, texts))
    case Address4(addr) => Ok(P + addr)
    case Address6(addr) => Ok(P + addr)
    case Naptr(_, _, _, _, _, replacement) => AppendName(P + NaptrHead(rd), replacement, false)
    case Srv(_, _, _, target) => Ok(P + (SrvHead(rd) + CharString(target)))
    case Wks(addr, protocol, bitmap) => Ok(P + (addr + [protocol % 0x100] + bitmap))
    case Raw(data) => Ok(P + data)
  }

  function DecodeTexts(b: seq<byte>, pos: nat, limit: nat): (r: Parsed<seq<seq<byte>>>)
    ensures r.Parsed? ==> pos <= r.next && (pos <= |b| ==> r.next <= |b|)
    decreases |b| - pos
  {
    if pos >= limit then Parsed([], pos)
    else
      var (text, p) :- GetCharString(b, pos);
      var (rest, q) :- DecodeTexts(b, p, limit);
      Parsed([text] + rest, q)
  }

  function DecodeTimers(b: seq<byte>, pos: nat): (r: Parsed<Timers>)
    ensures r.Parsed? ==> pos <= r.next <= |b|
  {
    var (serial, p1) :- Get32(b, pos);
    var (refresh, p2) :- Get32(b, p1);
    var (retry, p3) :- Get32(b, p2);
    var (expire, p4) :- Get32(b, p3);
    var (minimum, p5) :- Get32(b, p4);
    Parsed(Timers(serial, refresh, retry, expire, minimum), p5)
  }

  function DecodeTwoNames(b: seq<byte>, pos: nat): (r: Parsed<(seq<byte>, seq<byte>)>)
    requires pos <= |b|
    ensures r.Parsed? ==> pos <= r.next <= |b|
  {
    var (x, p1) :- DecodeName(b, pos, [], true);
    var (y, p2) :- DecodeName(b, p1, [], true);
    Parsed((x, y), p2)
  }

  function DecodeSoa(b: seq<byte>, pos: nat): (r: Parsed<RData>)
    requires pos <= |b|
    ensures r.Parsed? ==> pos <= r.next <= |b|
  {
    var (names, p1) :- DecodeTwoNames(b, pos);
    var (timers, p2) :- DecodeTimers(b, p1);
    Parsed(Soa(names.0, names.1, timers), p2)
  }

  function DecodeThreeStrings(b: seq<byte>, pos: nat): (r: Parsed<(seq<byte>, seq<byte>, seq<byte>)>)
    ensures r.Parsed? ==> pos <= r.next <= |b|
  {
    var (x, p1) :- GetCharString(b, pos);
    var (y, p2) :- GetCharString(b, p1);
    var (z, p3) :- GetCharString(b, p2);
    Parsed((x, y, z), p3)
  }

  function DecodeNaptr(b: seq<byte>, pos: nat): (r: Parsed<RData>)
    ensures r.Parsed? ==> pos <= r.next <= |b|
  {
    var (order, p1) :- Get16(b, pos);
    var (preference, p2) :- Get16(b, p1);
    var (strings, p3) :- DecodeThreeStrings(b, p2);
    var (replacement, p4) :- DecodeName(b, p3, [], false);
    Parsed(Naptr(order, preference, strings.0, strings.1, strings.2, replacement), p4)
  }

  /** Strings up to `limit`, a dot behind each. */
  function DecodeTarget(b: seq<byte>, pos: nat, limit: nat): (r: Parsed<seq<byte>>)
    ensures r.Parsed? ==> pos <= r.next && (pos <= |b| ==> r.next <= |b|)
    decreases |b| - pos
  {
    if pos >= limit then Parsed([], pos)
    else
      var (text, p) :- GetCharString(b, pos);
      var (rest, q) :- DecodeTarget(b, p, limit);
      Parsed(text + [DOT] + rest, q)
  }

  /** The fields before the target. */
  function DecodeSrvHead(b: seq<byte>, pos: nat): (r: Parsed<(uint, uint, uint)>)
    ensures r.Parsed? ==> r.next == pos + 6 <= |b|
  {
    var (priority, p1) :- Get16(b, pos);
    var (weight, p2) :- Get16(b, p1);
    var (port, p3) :- Get16(b, p2);
    Parsed((priority, weight, port), p3)
  }

  /** How many octets the target is read for; the subtraction is one of `unsigned int`. */
  function TargetSize(size: nat): nat {
    (size - 6) % 0x1_0000_0000
  }

  /** The target is meant to be the labels of a name, the last of which is empty: two characters are
      taken off its end. */
  function DecodeSrv(b: seq<byte>, pos: nat, size: nat): (r: Parsed<RData>)
    ensures r.Parsed? ==> pos <= r.next <= |b|
  {
    var (head, p1) :- DecodeSrvHead(b, pos);
    var (target, p2) :- DecodeTarget(b, p1, p1 + TargetSize(size));
    if |target| < 2 then Failed(PopFromEmpty)
    else Parsed(Srv(head.0, head.1, head.2, target[..|target| - 2]), p2)
  }

  function DecodeRData(b: seq<byte>, pos: nat, kind: Kind, size: nat): (r: Parsed<RData>)
    requires pos <= |b|
    ensures r.Parsed? ==> pos <= r.next <= |b|
  {
    match kind
    case NameKind => var (name, p) :- DecodeName(b, pos, [], true); Parsed(NameData(name), p)
    case HInfoKind =>
      var (cpu, p1) :- GetCharString(b, pos);
      var (os, p2) :- GetCharString(b, p1);
      Parsed(HInfo(cpu, os), p2)
    case MInfoKind =>
      var (names, p) :- DecodeTwoNames(b, pos);
      Parsed(MInfo(names.0, names.1), p)
    case MxKind =>
      var (preference, p1) :- Get16(b, pos);
      var (exchange, p2) :- DecodeName(b, p1, [], true);
      Parsed(Mx(preference, exchange), p2)
    case SoaKind => DecodeSoa(b, pos)
    case TxtKind => var (texts, p) :- DecodeTexts(b, pos, pos + size); Parsed(Txt(texts), p)
    case Address4Kind => var (addr, p) :- GetBytes(b, pos, 4); Parsed(Address4(addr), p)
    case Address6Kind => var (addr, p) :- GetBytes(b, pos, 16); Parsed(Address6(addr), p)
    case NaptrKind => DecodeNaptr(b, pos)
    case SrvKind => DecodeSrv(b, pos, size)
    case RawKind => var (data, p) :- GetBytes(b, pos, size); Parsed(Raw(data), p)
  }

  /** What the RDATA codec is meant for: agreed names, strings that fit their length octet, and
      fields that fit their width. */
  predicate RDataOk(rd: RData) {
    match rd
    case NameData(name) => NameOk(name)
    case HInfo(cpu, os) => |cpu| <= 255 && |os| <= 255
    case MInfo(x, y) => NameOk(x) && NameOk(y)
    case Mx(preference, exchange) => preference < 0x1_0000 && NameOk(exchange)
    case Soa(x, y, _) => NameOk(x) && NameOk(y)
    case Txt(texts) => forall i | 0 <= i < |texts| :: |texts[i]| <= 255
    case Address4(_) => true
    case Address6(_) => true
    case Naptr(order, preference, flags, services, regExp, replacement) =>
      && order < 0x1_0000 && preference < 0x1_0000
      && |flags| <= 255 && |services| <= 255 && |regExp| <= 255 && NameOk(replacement)
    case Srv(priority, weight, port, target) =>
      priority < 0x1_0000 && weight < 0x1_0000 && port < 0x1_0000 && |target| <= 255
    case Wks(_, protocol, _) => protocol < 0x100
    case Raw(_) => true
  }

  // ---------- records ----------

  datatype RR = RR(name: seq<byte>, rtype: uint, rclass: uint, ttl: uint, rdata: Option<RData>)

  /** The fields before RDLENGTH. */
  function AppendHead(P: seq<byte>, rr: RR): (r: Result<seq<byte>>)
    ensures r.Ok? ==> P <= r.value && |r.value| >= |P| + 9
    ensures NameOk(rr.name) ==> r.Ok?
  {
    var P1 :- AppendName(P, rr.name, true);
    Ok(P1 + U16(rr.rtype) + U16(rr.rclass) + U32(rr.ttl))
  }

  /** Overwrites the 16-bit field at `k`. */
  function Patch(Q: seq<byte>, k: nat, n: nat): (R: seq<byte>)
    requires k + 2 <= |Q|
    ensures |R| == |Q| && R[..k] == Q[..k] && R[k + 2..] == Q[k + 2..]
  {
    Q[..k] + U16(n) + Q[k + 2..]
  }

  /** The RDLENGTH field and the RDATA behind the fields `H`. */
  function AppendBody(H: seq<byte>, rdata: Option<RData>): (r: Result<seq<byte>>)
    ensures r.Ok? ==> H <= r.value && |r.value| >= |H| + 2
    ensures (rdata.Some? ==> RDataOk(rdata.value)) ==> r.Ok?
  {
    match rdata
    case None => Ok(H + U16(0))
    case Some(rd) =>
      var Q :- AppendRData(H + U16(0), rd);
      Ok(Patch(Q, |H|, |Q| - |H| - 2))
  }

  /** The buffer `P` after `ResourceRecord::encode`: the RDLENGTH field is written as zero and
      overwritten once the RDATA is there. */
  function AppendRecord(P: seq<byte>, rr: RR): (r: Result<seq<byte>>)
    ensures r.Ok? ==> P <= r.value && |r.value| >= |P| + 11
    ensures RecordOk(rr) ==> r.Ok?
  {
    var H :- AppendHead(P, rr);
    AppendBody(H, rr.rdata)
  }

  /** The fields of fixed width between the name and the RDATA. */
  datatype Fixed = Fixed(rtype: uint, rclass: uint, ttl: uint, size: uint)

  function DecodeFixed(b: seq<byte>, pos: nat): (r: Parsed<Fixed>)
    ensures r.Parsed? ==> r.next == pos + 10 <= |b|
  {
    var (rtype, p1) :- Get16(b, pos);
    var (rclass, p2) :- Get16(b, p1);
    var (ttl, p3) :- Get32(b, p2);
    var (size, p4) :- Get16(b, p3);
    Parsed(Fixed(rtype, rclass, ttl, size), p4)
  }

  /** The RDATA of `f.size` octets, if that is not zero; the decoder checks how many it has read. */
  function DecodeBody(b: seq<byte>, pos: nat, f: Fixed): (r: Parsed<Option<RData>>)
    requires pos <= |b|
    ensures r.Parsed? ==> r.next == pos + f.size <= |b|
  {
    if f.size == 0 then Parsed(None, pos)
    else
      var (rdata, p) :- DecodeRData(b, pos, KindOf(f.rtype), f.size);
      if p - pos != f.size then Failed(RDataSizeMismatch) else Parsed(Some(rdata), p)
  }

  /** The value of the RDLENGTH field of the record at `pos`. */
  function RdLength(b: seq<byte>, pos: nat): nat
    requires pos <= |b|
  {
    match DecodeName(b, pos, [], true)
    case Failed(_) => 0
    case Parsed(_, next) => match DecodeFixed(b, next) case Failed(_) => 0 case Parsed(f, _) => f.size
  }

  /** An accepted record takes an octet or more for its name, ten for the fixed fields, and exactly
      as many octets of RDATA as RDLENGTH announces. */
  function DecodeRecord(b: seq<byte>, pos: nat): (r: Parsed<RR>)
    requires pos <= |b|
    ensures r.Parsed? ==> pos + 11 + RdLength(b, pos) <= r.next <= |b|
  {
    var (name, p1) :- DecodeName(b, pos, [], true);
    var (f, p2) :- DecodeFixed(b, p1);
    var (rdata, p3) :- DecodeBody(b, p2, f);
    Parsed(RR(name, f.rtype, f.rclass, f.ttl, rdata), p3)
  }

  predicate RecordOk(rr: RR) {
    && NameOk(rr.name) && rr.rtype < 0x1_0000 && rr.rclass < 0x1_0000
    && (rr.rdata.Some? ==> RDataOk(rr.rdata.value) && KindOf(rr.rtype) == KindOfData(rr.rdata.value))
  }

  // ---------- questions ----------

  datatype Question = Question(qName: seq<byte>, qType: uint, qClass: uint)

  function AppendQuestion(P: seq<byte>, q: Question): (r: Result<seq<byte>>)
    ensures r.Ok? ==> P <= r.value && |r.value| >= |P| + 5
    ensures QuestionOk(q) ==> r.Ok?
  {
    var P1 :- AppendName(P, q.qName, true);
    Ok(P1 + U16(q.qType) + U16(q.qClass))
  }

  function DecodeQuestion(b: seq<byte>, pos: nat): (r: Parsed<Question>)
    requires pos <= |b|
    ensures r.Parsed? ==> pos + 5 <= r.next <= |b|
  {
    var (qName, p1) :- DecodeName(b, pos, [], true);
    var (qType, p2) :- Get16(b, p1);
    var (qClass, p3) :- Get16(b, p2);
    Parsed(Question(qName, qType, qClass), p3)
  }

  predicate QuestionOk(q: Question) {
    NameOk(q.qName) && q.qType < 0x1_0000 && q.qClass < 0x1_0000
  }
}
