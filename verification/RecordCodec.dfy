/** The record classes: encoding into a buffer and decoding from it, field by field. */
module RecordCodec {
  import opened Octets
  import opened Names
  import opened DnsBuffer
  import opened Records
  import opened WireRecords

  // ---------- writing RDATA ----------

  method EncodeTwoNames(buffer: Buffer, x: seq<byte>, y: seq<byte>) returns (r: Result<()>)
    requires buffer.Valid()
    modifies buffer.mBuffer, buffer`mPos
    ensures buffer.Valid()
    ensures buffer.Appended(AppendTwoNames(old(buffer.Written()), x, y),
                            old(buffer.mBuffer[..]), old(buffer.mPos), r)
  {
    ghost var before, start := buffer.mBuffer[..], buffer.mPos;
    r := buffer.PutDnsDomainName(x, true);
    if r.Throw? {
      return;
    }
    ghost var W, mid := buffer.Written(), buffer.mBuffer[..];
    r := buffer.PutDnsDomainName(y, true);
    buffer.AppendedOver(AppendName(W, y, true), W, before, mid, start, r);
  }

  function AppendTwoNames(P: seq<byte>, x: seq<byte>, y: seq<byte>): (r: Result<seq<byte>>)
    ensures r.Ok? ==> P <= r.value
  {
    var P1 :- AppendName(P, x, true);
    AppendName(P1, y, true)
  }

  method EncodeTimers(buffer: Buffer, t: Timers) returns (r: Result<()>)
    requires buffer.Valid()
    modifies buffer.mBuffer, buffer`mPos
    ensures buffer.Valid()
    ensures buffer.Appended(Ok(old(buffer.Written()) + TimerOctets(t)),
                            old(buffer.mBuffer[..]), old(buffer.mPos), r)
  {
    ghost var before, W := buffer.mBuffer[..], buffer.Written();
    ghost var W1, W2 := W + U32(t.serial), W + U32(t.serial) + U32(t.refresh);
    ghost var W3, W4 := W2 + U32(t.retry), W2 + U32(t.retry) + U32(t.expire);
    assert W + TimerOctets(t) == W4 + U32(t.minimum);
    var _ :- buffer.PutNext32Bits(t.serial, W, before);
    var _ :- buffer.PutNext32Bits(t.refresh, W1, before);
    var _ :- buffer.PutNext32Bits(t.retry, W2, before);
    var _ :- buffer.PutNext32Bits(t.expire, W3, before);
    var _ :- buffer.PutNext32Bits(t.minimum, W4, before);
    return Ok(());
  }

  method EncodeSoa(buffer: Buffer, rd: RData) returns (r: Result<()>)
    requires buffer.Valid() && rd.Soa?
    modifies buffer.mBuffer, buffer`mPos
    ensures buffer.Valid()
    ensures buffer.Appended(AppendRData(old(buffer.Written()), rd), old(buffer.mBuffer[..]), old(buffer.mPos), r)
  {
    ghost var before, start := buffer.mBuffer[..], buffer.mPos;
    r := EncodeTwoNames(buffer, rd.mName, rd.rName);
    if r.Throw? {
      return;
    }
    ghost var W, mid := buffer.Written(), buffer.mBuffer[..];
    r := EncodeTimers(buffer, rd.timers);
    buffer.AppendedOver(Ok(W + TimerOctets(rd.timers)), W, before, mid, start, r);
  }

  method EncodeMx(buffer: Buffer, rd: RData) returns (r: Result<()>)
    requires buffer.Valid() && rd.Mx?
    modifies buffer.mBuffer, buffer`mPos
    ensures buffer.Valid()
    ensures buffer.Appended(AppendRData(old(buffer.Written()), rd), old(buffer.mBuffer[..]), old(buffer.mPos), r)
  {
    ghost var before, start := buffer.mBuffer[..], buffer.mPos;
    r := buffer.Put16Bits(rd.preference);
    if r.Throw? {
      return;
    }
    ghost var W, mid := buffer.Written(), buffer.mBuffer[..];
    r := buffer.PutDnsDomainName(rd.exchange, true);
    buffer.AppendedOver(AppendName(W, rd.exchange, true), W, before, mid, start, r);
  }

  method EncodeHInfo(buffer: Buffer, rd: RData) returns (r: Result<()>)
    requires buffer.Valid() && rd.HInfo?
    modifies buffer.mBuffer, buffer`mPos
    ensures buffer.Valid()
    ensures buffer.Appended(AppendRData(old(buffer.Written()), rd), old(buffer.mBuffer[..]), old(buffer.mPos), r)
  {
    ghost var before, start := buffer.mBuffer[..], buffer.mPos;
    ghost var P := buffer.Written();
    r := buffer.PutDnsCharacterString(rd.cpu);
    if r.Throw? {
      return;
    }
    ghost var W, mid := buffer.Written(), buffer.mBuffer[..];
    r := buffer.PutDnsCharacterString(rd.os);
    buffer.AppendedOver(Ok(W + CharString(rd.os)), W, before, mid, start, r);
    assert W + CharString(rd.os) == P + (CharString(rd.cpu) + CharString(rd.os));
  }

  /** `RDataTXT::encode`: the strings one after another. */
  method EncodeTexts(buffer: Buffer, texts: seq<seq<byte>>) returns (r: Result<()>)
    requires buffer.Valid()
    modifies buffer.mBuffer, buffer`mPos
    ensures buffer.Valid()
    ensures buffer.Appended(Ok(AppendTexts(old(buffer.Written()), texts)),
                            old(buffer.mBuffer[..]), old(buffer.mPos), r)
  {
    ghost var before, start, Q := buffer.mBuffer[..], buffer.mPos, AppendTexts(buffer.Written(), texts);
    var i := 0;
    while i < |texts|
      invariant i <= |texts| && buffer.Valid() && start <= buffer.mPos
      invariant buffer.Holds(buffer.Written(), before) && buffer.Written()[..start] == before[..start]
      invariant AppendTexts(buffer.Written(), texts[i..]) == Q
    {
      ghost var W, mid := buffer.Written(), buffer.mBuffer[..];
      r := buffer.PutDnsCharacterString(texts[i]);
      buffer.AppendedOver(Ok(W + CharString(texts[i])), W, before, mid, start, r);
      assert texts[i..][0] == texts[i] && texts[i..][1..] == texts[i + 1..];
      if r.Throw? {
        return;
      }
      i := i + 1;
    }
    return Ok(());
  }

  /** The fields of a NAPTR record before its replacement name. */
  method EncodeNaptrHead(buffer: Buffer, rd: RData) returns (r: Result<()>)
    requires buffer.Valid() && rd.Naptr?
    modifies buffer.mBuffer, buffer`mPos
    ensures buffer.Valid()
    ensures buffer.Appended(Ok(old(buffer.Written()) + NaptrHead(rd)),
                            old(buffer.mBuffer[..]), old(buffer.mPos), r)
  {
    ghost var before, start, P := buffer.mBuffer[..], buffer.mPos, buffer.Written();
    r := EncodeTwoNumbers(buffer, rd.order, rd.naptrPreference);
    if r.Throw? {
      return;
    }
    ghost var W, mid := buffer.Written(), buffer.mBuffer[..];
    r := EncodeThreeStrings(buffer, rd.flags, rd.services, rd.regExp);
    ghost var t := CharString(rd.flags) + CharString(rd.services) + CharString(rd.regExp);
    buffer.AppendedOver(Ok(W + t), W, before, mid, start, r);
    assert W + t == P + NaptrHead(rd);
  }

  method EncodeTwoNumbers(buffer: Buffer, x: nat, y: nat) returns (r: Result<()>)
    requires buffer.Valid()
    modifies buffer.mBuffer, buffer`mPos
    ensures buffer.Valid()
    ensures buffer.Appended(Ok(old(buffer.Written()) + (U16(x) + U16(y))),
                            old(buffer.mBuffer[..]), old(buffer.mPos), r)
  {
    ghost var before, start, P := buffer.mBuffer[..], buffer.mPos, buffer.Written();
    r := buffer.Put16Bits(x);
    if r.Throw? {
      return;
    }
    ghost var W, mid := buffer.Written(), buffer.mBuffer[..];
    r := buffer.Put16Bits(y);
    buffer.AppendedOver(Ok(W + U16(y)), W, before, mid, start, r);
    assert W + U16(y) == P + (U16(x) + U16(y));
  }

  method EncodeThreeStrings(buffer: Buffer, x: seq<byte>, y: seq<byte>, z: seq<byte>) returns (r: Result<()>)
    requires buffer.Valid()
    modifies buffer.mBuffer, buffer`mPos
    ensures buffer.Valid()
    ensures buffer.Appended(Ok(old(buffer.Written()) + (CharString(x) + CharString(y) + CharString(z))),
                            old(buffer.mBuffer[..]), old(buffer.mPos), r)
  {
    hide CharString;
    ghost var before, start, P := buffer.mBuffer[..], buffer.mPos, buffer.Written();
    r := buffer.PutDnsCharacterString(x);
    if r.Throw? {
      return;
    }
    ghost var W, mid := buffer.Written(), buffer.mBuffer[..];
    r := buffer.PutDnsCharacterString(y);
    buffer.AppendedOver(Ok(W + CharString(y)), W, before, mid, start, r);
    if r.Throw? {
      return;
    }
    W, mid := buffer.Written(), buffer.mBuffer[..];
    r := buffer.PutDnsCharacterString(z);
    buffer.AppendedOver(Ok(W + CharString(z)), W, before, mid, start, r);
    assert W + CharString(z) == P + (CharString(x) + CharString(y) + CharString(z));
  }

  method EncodeNaptr(buffer: Buffer, rd: RData) returns (r: Result<()>)
    requires buffer.Valid() && rd.Naptr?
    modifies buffer.mBuffer, buffer`mPos
    ensures buffer.Valid()
    ensures buffer.Appended(AppendRData(old(buffer.Written()), rd), old(buffer.mBuffer[..]), old(buffer.mPos), r)
  {
    ghost var before, start := buffer.mBuffer[..], buffer.mPos;
    r := EncodeNaptrHead(buffer, rd);
    if r.Throw? {
      return;
    }
    ghost var W, mid := buffer.Written(), buffer.mBuffer[..];
    r := buffer.PutDnsDomainName(rd.replacement, false);
    buffer.AppendedOver(AppendName(W, rd.replacement, false), W, before, mid, start, r);
  }

  /** `RDataA::encode` and `RDataAAAA::encode`: one octet after another. */
  method EncodeAddress(buffer: Buffer, addr: seq<byte>) returns (r: Result<()>)
    requires buffer.Valid()
    modifies buffer.mBuffer, buffer`mPos
    ensures buffer.Valid()
    ensures buffer.Appended(Ok(old(buffer.Written()) + addr), old(buffer.mBuffer[..]), old(buffer.mPos), r)
  {
    ghost var before, P := buffer.mBuffer[..], buffer.Written();
    for i := 0 to |addr|
      invariant buffer.Valid() && buffer.Holds(P + addr[..i], before)
    {
      ghost var W, mid := buffer.Written(), buffer.mBuffer[..];
      var _ :- buffer.Put8Bits(addr[i]);
      OneMoreOctet(P, addr, i);
      buffer.HoldsOver(W, buffer.Written(), before, mid);
    }
    assert addr[..|addr|] == addr;
    return Ok(());
  }

  lemma OneMoreOctet(P: seq<byte>, addr: seq<byte>, i: nat)
    requires i < |addr|
    ensures P + addr[..i + 1] == P + addr[..i] + [addr[i]]
  {
  }

  method EncodeSrvHead(buffer: Buffer, rd: RData) returns (r: Result<()>)
    requires buffer.Valid() && rd.Srv?
    modifies buffer.mBuffer, buffer`mPos
    ensures buffer.Valid()
    ensures buffer.Appended(Ok(old(buffer.Written()) + SrvHead(rd)), old(buffer.mBuffer[..]), old(buffer.mPos), r)
  {
    ghost var before, start, P := buffer.mBuffer[..], buffer.mPos, buffer.Written();
    r := EncodeTwoNumbers(buffer, rd.priority, rd.weight);
    if r.Throw? {
      return;
    }
    ghost var W, mid := buffer.Written(), buffer.mBuffer[..];
    r := buffer.Put16Bits(rd.port);
    buffer.AppendedOver(Ok(W + U16(rd.port)), W, before, mid, start, r);
    assert W + U16(rd.port) == P + SrvHead(rd);
  }

  /** `RDataSRV::encode`: the target is one character string. */
  method EncodeSrv(buffer: Buffer, rd: RData) returns (r: Result<()>)
    requires buffer.Valid() && rd.Srv?
    modifies buffer.mBuffer, buffer`mPos
    ensures buffer.Valid()
    ensures buffer.Appended(AppendRData(old(buffer.Written()), rd), old(buffer.mBuffer[..]), old(buffer.mPos), r)
  {
    hide SrvHead, CharString;
    ghost var before, start, P := buffer.mBuffer[..], buffer.mPos, buffer.Written();
    r := EncodeSrvHead(buffer, rd);
    if r.Throw? {
      return;
    }
    ghost var W, mid := buffer.Written(), buffer.mBuffer[..];
    r := buffer.PutDnsCharacterString(rd.target);
    buffer.AppendedOver(Ok(W + CharString(rd.target)), W, before, mid, start, r);
    assert W + CharString(rd.target) == P + (SrvHead(rd) + CharString(rd.target));
  }

  /** `RDataWKS::encode`: address, protocol and bitmap. */
  method EncodeWks(buffer: Buffer, rd: RData) returns (r: Result<()>)
    requires buffer.Valid() && rd.Wks?
    modifies buffer.mBuffer, buffer`mPos
    ensures buffer.Valid()
    ensures buffer.Appended(AppendRData(old(buffer.Written()), rd), old(buffer.mBuffer[..]), old(buffer.mPos), r)
  {
    ghost var before, start, P := buffer.mBuffer[..], buffer.mPos, buffer.Written();
    var protocol: byte := rd.protocol % 0x100;
    r := EncodeAddress(buffer, rd.wksAddr);
    if r.Throw? {
      return;
    }
    ghost var W, mid := buffer.Written(), buffer.mBuffer[..];
    r := buffer.Put8Bits(protocol);
    buffer.AppendedOver(Ok(W + [protocol]), W, before, mid, start, r);
    if r.Throw? {
      return;
    }
    W, mid := buffer.Written(), buffer.mBuffer[..];
    r := buffer.PutBytes(rd.bitmap);
    buffer.AppendedOver(Ok(W + rd.bitmap), W, before, mid, start, r);
    assert W + rd.bitmap == P + (rd.wksAddr + [protocol] + rd.bitmap);
  }

  /** The `encode` of the RDATA class that `rd` belongs to. */
  method EncodeRData(buffer: Buffer, rd: RData) returns (r: Result<()>)
    requires buffer.Valid()
    modifies buffer.mBuffer, buffer`mPos
    ensures buffer.Valid()
    ensures buffer.Appended(AppendRData(old(buffer.Written()), rd), old(buffer.mBuffer[..]), old(buffer.mPos), r)
  {
    match rd
    case NameData(name) => r := buffer.PutDnsDomainName(name, true);
    case HInfo(_, _) => r := EncodeHInfo(buffer, rd);
    case MInfo(x, y) => r := EncodeTwoNames(buffer, x, y);
    case Mx(_, _) => r := EncodeMx(buffer, rd);
    case Soa(_, _, _) => r := EncodeSoa(buffer, rd);
    case Txt(texts) => r := EncodeTexts(buffer, texts);
    case Address4(addr) => r := EncodeAddress(buffer, addr);
    case Address6(addr) => r := EncodeAddress(buffer, addr);
    case Naptr(_, _, _, _, _, _) => r := EncodeNaptr(buffer, rd);
    case Srv(_, _, _, _) => r := EncodeSrv(buffer, rd);
    case Wks(_, _, _) => r := EncodeWks(buffer, rd);
    case Raw(data) => r := buffer.PutBytes(data);
  }

  // ---------- reading RDATA ----------

  method ReadTwoNames(buffer: Buffer) returns (r: Result<(seq<byte>, seq<byte>)>)
    requires buffer.Valid() && buffer.mLinkPos == []
    modifies buffer`mPos, buffer`mLinkPos
    ensures buffer.Valid() && (r.Ok? ==> buffer.mLinkPos == [])
    ensures buffer.Reads(DecodeTwoNames(buffer.mBuffer[..], old(buffer.mPos)), r)
  {
    var x :- buffer.GetDnsDomainName(true);
    var y :- buffer.GetDnsDomainName(true);
    return Ok((x, y));
  }

  method ReadTimers(buffer: Buffer) returns (r: Result<Timers>)
    requires buffer.Valid()
    modifies buffer`mPos
    ensures buffer.Valid() && buffer.Reads(DecodeTimers(buffer.mBuffer[..], old(buffer.mPos)), r)
  {
    var serial :- buffer.Get32Bits();
    var refresh :- buffer.Get32Bits();
    var retry :- buffer.Get32Bits();
    var expire :- buffer.Get32Bits();
    var minimum :- buffer.Get32Bits();
    return Ok(Timers(serial, refresh, retry, expire, minimum));
  }

  method ReadSoa(buffer: Buffer) returns (r: Result<RData>)
    requires buffer.Valid() && buffer.mLinkPos == []
    modifies buffer`mPos, buffer`mLinkPos
    ensures buffer.Valid() && (r.Ok? ==> buffer.mLinkPos == [])
    ensures buffer.Reads(DecodeSoa(buffer.mBuffer[..], old(buffer.mPos)), r)
  {
    var names :- ReadTwoNames(buffer);
    var timers :- ReadTimers(buffer);
    return Ok(Soa(names.0, names.1, timers));
  }

  method ReadThreeStrings(buffer: Buffer) returns (r: Result<(seq<byte>, seq<byte>, seq<byte>)>)
    requires buffer.Valid()
    modifies buffer`mPos
    ensures buffer.Valid() && buffer.Reads(DecodeThreeStrings(buffer.mBuffer[..], old(buffer.mPos)), r)
  {
    var x :- buffer.GetDnsCharacterString();
    var y :- buffer.GetDnsCharacterString();
    var z :- buffer.GetDnsCharacterString();
    return Ok((x, y, z));
  }

  /** `RDataTXT::decode`: strings until the announced size is used up. */
  method ReadTexts(buffer: Buffer, size: nat) returns (r: Result<seq<seq<byte>>>)
    requires buffer.Valid()
    modifies buffer`mPos
    ensures buffer.Valid()
    ensures buffer.Reads(DecodeTexts(buffer.mBuffer[..], old(buffer.mPos), old(buffer.mPos) + size), r)
  {
    ghost var b := buffer.mBuffer[..];
    var posStart := buffer.mPos;
    var texts: seq<seq<byte>> := [];
    NothingBefore(DecodeTexts(b, posStart, posStart + size));
    while buffer.mPos - posStart < size
      invariant buffer.Valid() && buffer.mBuffer[..] == b && buffer.mPos >= posStart
      invariant DecodeTexts(b, posStart, posStart + size)
             == After(texts, DecodeTexts(b, buffer.mPos, posStart + size))
      decreases buffer.mBuffer.Length - buffer.mPos
    {
      ghost var done := texts;
      ghost var rest := DecodeTexts(b, buffer.mPos, posStart + size);
      var text :- buffer.GetDnsCharacterString();
      texts := texts + [text];
      OneMoreBefore(done, text, DecodeTexts(b, buffer.mPos, posStart + size));
    }
    assert texts + [] == texts;
    return Ok(texts);
  }

  method ReadNaptr(buffer: Buffer) returns (r: Result<RData>)
    requires buffer.Valid() && buffer.mLinkPos == []
    modifies buffer`mPos, buffer`mLinkPos
    ensures buffer.Valid() && (r.Ok? ==> buffer.mLinkPos == [])
    ensures buffer.Reads(DecodeNaptr(buffer.mBuffer[..], old(buffer.mPos)), r)
  {
    var order :- buffer.Get16Bits();
    var preference :- buffer.Get16Bits();
    var strings :- ReadThreeStrings(buffer);
    var replacement :- buffer.GetDnsDomainName(false);
    return Ok(Naptr(order, preference, strings.0, strings.1, strings.2, replacement));
  }

  method ReadSrvHead(buffer: Buffer) returns (r: Result<(uint, uint, uint)>)
    requires buffer.Valid()
    modifies buffer`mPos
    ensures buffer.Valid() && buffer.Reads(DecodeSrvHead(buffer.mBuffer[..], old(buffer.mPos)), r)
  {
    var priority :- buffer.Get16Bits();
    var weight :- buffer.Get16Bits();
    var port :- buffer.Get16Bits();
    return Ok((priority, weight, port));
  }

  /** The loop of `RDataSRV::decode`: strings until `count` octets are used up, a dot behind each. */
  method ReadTarget(buffer: Buffer, count: nat) returns (r: Result<seq<byte>>)
    requires buffer.Valid()
    modifies buffer`mPos
    ensures buffer.Valid()
    ensures buffer.Reads(DecodeTarget(buffer.mBuffer[..], old(buffer.mPos), old(buffer.mPos) + count), r)
  {
    ghost var b := buffer.mBuffer[..];
    var posStart := buffer.mPos;
    var target: seq<byte> := [];
    NothingBefore(DecodeTarget(b, posStart, posStart + count));
    while buffer.mPos - posStart < count
      invariant buffer.Valid() && buffer.mBuffer[..] == b && buffer.mPos >= posStart
      invariant DecodeTarget(b, posStart, posStart + count)
             == After(target, DecodeTarget(b, buffer.mPos, posStart + count))
      decreases buffer.mBuffer.Length - buffer.mPos
    {
      ghost var done := target;
      ghost var rest := DecodeTarget(b, buffer.mPos, posStart + count);
      var text :- buffer.GetDnsCharacterString();
      target := target + text;
      target := target + [DOT];
      MoreBefore(done, text + [DOT], DecodeTarget(b, buffer.mPos, posStart + count));
      assert done + text + [DOT] == done + (text + [DOT]);
    }
    assert target + [] == target;
    return Ok(target);
  }

  /** `RDataSRV::decode`: two characters are taken off the end of the target. */
  method ReadSrv(buffer: Buffer, size: nat) returns (r: Result<RData>)
    requires buffer.Valid()
    modifies buffer`mPos
    ensures buffer.Valid() && buffer.Reads(DecodeSrv(buffer.mBuffer[..], old(buffer.mPos), size), r)
  {
    var head :- ReadSrvHead(buffer);
    var target :- ReadTarget(buffer, TargetSize(size));
    if |target| < 2 {
      return Throw(PopFromEmpty);
    }
    return Ok(Srv(head.0, head.1, head.2, target[..|target| - 2]));
  }

  /** The `decode` of the RDATA class that the type code selects. */
  method ReadRData(buffer: Buffer, kind: Kind, size: nat) returns (r: Result<RData>)
    requires buffer.Valid() && buffer.mLinkPos == []
    modifies buffer`mPos, buffer`mLinkPos
    ensures buffer.Valid() && (r.Ok? ==> buffer.mLinkPos == [])
    ensures buffer.Reads(DecodeRData(buffer.mBuffer[..], old(buffer.mPos), kind, size), r)
  {
    match kind
    case NameKind =>
      var name :- buffer.GetDnsDomainName(true);
      return Ok(NameData(name));
    case HInfoKind =>
      var cpu :- buffer.GetDnsCharacterString();
      var os :- buffer.GetDnsCharacterString();
      return Ok(HInfo(cpu, os));
    case MInfoKind =>
      var names :- ReadTwoNames(buffer);
      return Ok(MInfo(names.0, names.1));
    case MxKind =>
      var preference :- buffer.Get16Bits();
      var exchange :- buffer.GetDnsDomainName(true);
      return Ok(Mx(preference, exchange));
    case SoaKind =>
      r := ReadSoa(buffer);
    case TxtKind =>
      var texts :- ReadTexts(buffer, size);
      return Ok(Txt(texts));
    case Address4Kind =>
      var addr :- buffer.TakeBytes(4);
      return Ok(Address4(addr));
    case Address6Kind =>
      var addr :- buffer.TakeBytes(16);
      return Ok(Address6(addr));
    case NaptrKind =>
      r := ReadNaptr(buffer);
    case SrvKind =>
      r := ReadSrv(buffer, size);
    case RawKind =>
      var data :- buffer.TakeBytes(size);
      return Ok(Raw(data));
  }

  // ---------- the record object ----------

  class ResourceRecord {
    var mName: seq<byte>
    var mType: uint
    var mClass: uint
    var mTtl: uint
    var mRDataSize: uint
    var mRData: Option<RData>

    /** What the record says; the size field is scratch. */
    function Value(): RR
      reads this`mName, this`mType, this`mClass, this`mTtl, this`mRData
    {
      RR(mName, mType, mClass, mTtl, mRData)
    }

    constructor ()
      ensures Value() == RR([], 10, 1, 0, None)
    {
      mName, mType, mClass, mTtl, mRDataSize, mRData := [], 10, 1, 0, 0, None;
    }

    /** On success the fields are those of the record at the cursor, and the size field is RDLENGTH.
        RDATA that the object already holds stays if the record has none. */
    method Decode(buffer: Buffer) returns (r: Result<()>)
      requires buffer.Valid() && buffer.mLinkPos == []
      modifies this, buffer`mPos, buffer`mLinkPos
      ensures buffer.Valid() && (r.Ok? ==> buffer.mLinkPos == [])
      ensures
        match DecodeRecord(buffer.mBuffer[..], old(buffer.mPos))
        case Failed(e) => r == Throw(e)
        case Parsed(rr, next) =>
          && r == Ok(()) && buffer.mPos == next
          && Value() == (if rr.rdata.Some? then rr else rr.(rdata := old(mRData)))
          && mRDataSize == RdLength(buffer.mBuffer[..], old(buffer.mPos))
      ensures r.Ok? <==> exists rr, q :: RecordStands(buffer.mBuffer[..], old(buffer.mPos), rr, q)
      ensures r.Ok? && old(mRData) == None ==>
        RecordStands(buffer.mBuffer[..], old(buffer.mPos), Value(), buffer.mPos)
    {
      hide DecodeName, DecodeFixed, DecodeBody, RecordStands;
      RecordAccepted(buffer.mBuffer[..], buffer.mPos);
      mName :- buffer.GetDnsDomainName(true);
      var fixed :- ReadFixed(buffer);
      mType, mClass, mTtl, mRDataSize := fixed.rtype, fixed.rclass, fixed.ttl, fixed.size;
      var rdata :- ReadBody(buffer, fixed);
      if rdata.Some? {
        mRData := rdata;
      }
      return Ok(());
    }

    /** The record is left as it was, but for the size field, which becomes that of the RDATA. */
    method Encode(buffer: Buffer) returns (r: Result<()>)
      requires buffer.Valid()
      modifies this`mRDataSize, buffer.mBuffer, buffer`mPos
      ensures buffer.Valid()
      ensures buffer.mBuffer[..old(buffer.mPos)] == old(buffer.Written())
      ensures r.Ok? <==> EncodesInto(old(buffer.Written()), Value(), buffer.mBuffer.Length)
      ensures r.Ok? ==> buffer.Holds(AppendRecord(old(buffer.Written()), Value()).value, old(buffer.mBuffer[..]))
      ensures r.Ok? && mRData.Some? ==>
        mRDataSize == (buffer.mPos - |AppendHead(old(buffer.Written()), Value()).value| - 2) % 0x1_0000_0000
      ensures mRData.None? ==> mRDataSize == old(mRDataSize)
    {
      hide AppendHead, AppendBody, U16;
      ghost var before, start := buffer.mBuffer[..], buffer.mPos;
      r := EncodeHead(buffer, Value());
      if r.Throw? {
        return;
      }
      ghost var H, mid := buffer.Written(), buffer.mBuffer[..];
      var size;
      size, r := EncodeBody(buffer, mRData);
      if mRData.Some? {
        mRDataSize := size;
      }
      if r.Ok? {
        buffer.HoldsOver(H, buffer.Written(), before, mid);
      } else {
        assert buffer.mBuffer[..start] == buffer.mBuffer[..|H|][..start];
      }
    }
  }

  /** Where encoding succeeds: the record fits, and a record with RDATA does not end exactly at the end
      of the buffer, because the cursor cannot be set back there. */
  predicate EncodesInto(P: seq<byte>, rr: RR, capacity: nat) {
    var r := AppendRecord(P, rr);
    r.Ok? && if rr.rdata.Some? then |r.value| < capacity else |r.value| <= capacity
  }

  /** The RDLENGTH field, first as zero, and the RDATA; `size` is what the field ends up as. */
  method EncodeBody(buffer: Buffer, rdata: Option<RData>) returns (size: uint, r: Result<()>)
    requires buffer.Valid()
    modifies buffer.mBuffer, buffer`mPos
    ensures buffer.Valid() && buffer.mBuffer[..old(buffer.mPos)] == old(buffer.Written())
    ensures var spec := AppendBody(old(buffer.Written()), rdata);
      && (r.Ok? <==> spec.Ok? && if rdata.Some? then |spec.value| < buffer.mBuffer.Length
                                 else |spec.value| <= buffer.mBuffer.Length)
      && (r.Ok? ==> buffer.Holds(spec.value, old(buffer.mBuffer[..])))
      && (r.Ok? && rdata.Some? ==> size == (buffer.mPos - old(buffer.mPos) - 2) % 0x1_0000_0000)
  {
    hide AppendRData, RDataOk;
    size := 0;
    ghost var before, H := buffer.mBuffer[..], buffer.Written();
    var bufferPosRDataLength := buffer.mPos;
    r := buffer.Put16Bits(0);
    if r.Throw? || rdata.None? {
      return;
    }
    ghost var W, mid := buffer.Written(), buffer.mBuffer[..];
    r := EncodeRData(buffer, rdata.value);
    buffer.AppendedOver(AppendRData(W, rdata.value), W, before, mid, |H|, r);
    if r.Throw? {
      return;
    }
    ghost var Q := buffer.Written();
    mid := buffer.mBuffer[..];
    var dataSize := buffer.mPos - bufferPosRDataLength - 2;
    size := dataSize % 0x1_0000_0000;
    r := PatchLength(buffer, bufferPosRDataLength, dataSize);
    if r.Ok? {
      buffer.HoldsOver(Q, buffer.Written(), before, mid);
    }
  }

  method ReadFixed(buffer: Buffer) returns (r: Result<Fixed>)
    requires buffer.Valid()
    modifies buffer`mPos
    ensures buffer.Valid() && buffer.Reads(DecodeFixed(buffer.mBuffer[..], old(buffer.mPos)), r)
  {
    var rtype :- buffer.Get16Bits();
    var rclass :- buffer.Get16Bits();
    var ttl :- buffer.Get32Bits();
    var size :- buffer.Get16Bits();
    return Ok(Fixed(rtype, rclass, ttl, size));
  }

  /** The RDATA, if RDLENGTH is not zero, and the check that it has been read exactly. */
  method ReadBody(buffer: Buffer, f: Fixed) returns (r: Result<Option<RData>>)
    requires buffer.Valid() && buffer.mLinkPos == []
    modifies buffer`mPos, buffer`mLinkPos
    ensures buffer.Valid() && (r.Ok? ==> buffer.mLinkPos == [])
    ensures buffer.Reads(DecodeBody(buffer.mBuffer[..], old(buffer.mPos), f), r)
  {
    if f.size == 0 {
      return Ok(None);
    }
    var bPos := buffer.mPos;
    var rdata :- ReadRData(buffer, KindOf(f.rtype), f.size);
    if buffer.mPos - bPos != f.size {
      return Throw(RDataSizeMismatch);
    }
    return Ok(Some(rdata));
  }

  method EncodeHead(buffer: Buffer, rr: RR) returns (r: Result<()>)
    requires buffer.Valid()
    modifies buffer.mBuffer, buffer`mPos
    ensures buffer.Valid()
    ensures buffer.Appended(AppendHead(old(buffer.Written()), rr), old(buffer.mBuffer[..]), old(buffer.mPos), r)
  {
    hide AppendName, U16;
    ghost var before, start := buffer.mBuffer[..], buffer.mPos;
    r := buffer.PutDnsDomainName(rr.name, true);
    if r.Throw? {
      return;
    }
    ghost var P, mid := buffer.Written(), buffer.mBuffer[..];
    r := EncodeTwoNumbers(buffer, rr.rtype, rr.rclass);
    buffer.AppendedOver(Ok(P + (U16(rr.rtype) + U16(rr.rclass))), P, before, mid, start, r);
    if r.Throw? {
      return;
    }
    ghost var W := buffer.Written();
    mid := buffer.mBuffer[..];
    r := buffer.Put32Bits(rr.ttl);
    buffer.AppendedOver(Ok(W + U32(rr.ttl)), W, before, mid, start, r);
    assert W + U32(rr.ttl) == P + U16(rr.rtype) + U16(rr.rclass) + U32(rr.ttl);
  }

  /** Overwrites the 16-bit field at `pos` and comes back to the end of the RDATA. */
  method PatchLength(buffer: Buffer, pos: nat, size: nat) returns (r: Result<()>)
    requires buffer.Valid() && pos + 2 <= buffer.mPos
    modifies buffer.mBuffer, buffer`mPos
    ensures buffer.Valid() && buffer.mBuffer[..pos] == old(buffer.mBuffer[..pos])
    ensures r.Ok? <==> old(buffer.mPos) < buffer.mBuffer.Length
    ensures r.Ok? ==> buffer.Holds(Patch(old(buffer.Written()), pos, size), old(buffer.mBuffer[..]))
  {
    ghost var before, Q := buffer.mBuffer[..], buffer.Written();
    var bufferLastPos := buffer.mPos;
    r := buffer.SetPos(pos);
    r := buffer.Put16Bits(size);
    assert buffer.mBuffer[..] == before[..pos] + U16(size) + before[pos + 2..];
    PatchedInPlace(before, Q, pos, size);
    r := buffer.SetPos(bufferLastPos);
  }

  lemma PatchedInPlace(before: seq<byte>, Q: seq<byte>, pos: nat, size: nat)
    requires Q <= before && pos + 2 <= |Q|
    ensures before[..pos] + U16(size) + before[pos + 2..] == Patch(Q, pos, size) + before[|Q|..]
  {
    assert before == Q + before[|Q|..];
    assert before[..pos] == Q[..pos] && before[pos + 2..] == Q[pos + 2..] + before[|Q|..];
  }
}
