/** The buffer that DNS messages are read from and written to, in place and with a cursor. */
module DnsBuffer {
  import opened Octets
  import opened Names
  import opened NameText

  class Buffer {
    const mBuffer: array<byte>  // the pointer and the size it was constructed with
    var mPos: nat               // the distance of mBufferPtr from mBuffer
    var mLinkPos: seq<nat>

    ghost predicate Valid()
      reads this
    {
      mPos <= mBuffer.Length
    }

    /** The octets before the cursor. */
    ghost function Written(): seq<byte>
      requires Valid()
      reads this, mBuffer
    {
      mBuffer[..mPos]
    }

    /** The call returned what `p` says and left the cursor where `p` says. */
    ghost predicate Reads<T>(p: Parsed<T>, r: Result<T>)
      reads this
    {
      match p
      case Parsed(v, next) => r == Ok(v) && mPos == next
      case Failed(e) => r == Throw(e)
    }

    /** The octets up to the cursor are `Q`; the octets behind it are those of `before`. */
    ghost predicate Holds(Q: seq<byte>, before: seq<byte>)
      reads this, mBuffer
    {
      && mBuffer.Length == |before| && mPos == |Q| <= |before|
      && mBuffer[..] == Q + before[|Q|..]
    }

    /** A sequence of puts that began at `start` over `before` wrote what `spec` says, or threw: for
        what `spec` throws, or for want of room. Octets before `start` are untouched either way. */
    ghost predicate Appended(spec: Result<seq<byte>>, before: seq<byte>, start: nat, r: Result<()>)
      requires start <= |before|
      reads this, mBuffer
    {
      && mBuffer.Length == |before| && mBuffer[..start] == before[..start]
      && (r.Ok? <==> spec.Ok? && |spec.value| <= |before|)
      && (r.Ok? ==> Holds(spec.value, before))
    }

    /** Putting more over a buffer that already held `W` over `before`. */
    lemma AppendedOver(spec: Result<seq<byte>>, W: seq<byte>, before: seq<byte>, mid: seq<byte>, start: nat,
                       r: Result<()>)
      requires start <= |W| <= |before| && W[..start] == before[..start] && mid == W + before[|W|..]
      requires Appended(spec, mid, |W|, r) && (spec.Ok? ==> W <= spec.value)
      ensures Appended(spec, before, start, r)
    {
      assert mBuffer[..start] == mBuffer[..|W|][..start];
    }

    constructor (buffer: array<byte>)
      ensures Valid() && mBuffer == buffer && mPos == 0 && mLinkPos == []
    {
      mBuffer, mPos, mLinkPos := buffer, 0, [];
    }

    // ---------- fixed-width fields ----------

    method CheckAvailableSpace(additionalSpace: nat) returns (r: Result<()>)
      requires Valid()
      ensures r == if mPos + additionalSpace > mBuffer.Length then Throw(BehindBuffer) else Ok(())
    {
      return if mPos + additionalSpace > mBuffer.Length then Throw(BehindBuffer) else Ok(());
    }

    method SetPos(pos: nat) returns (r: Result<()>)
      requires Valid()
      modifies this`mPos
      ensures Valid()
      ensures pos < mBuffer.Length ==> r == Ok(()) && mPos == pos
      ensures pos >= mBuffer.Length ==> r == Throw(PosBehindBuffer) && mPos == old(mPos)
    {
      if pos >= mBuffer.Length {
        return Throw(PosBehindBuffer);
      }
      mPos := pos;
      return Ok(());
    }

    method Get8Bits() returns (r: Result<byte>)
      requires Valid()
      modifies this`mPos
      ensures Valid() && Reads(Get8(mBuffer[..], old(mPos)), r)
    {
      var _ :- CheckAvailableSpace(1);
      var value := mBuffer[mPos];
      mPos := mPos + 1;
      return Ok(value);
    }

    method Get16Bits() returns (r: Result<uint>)
      requires Valid()
      modifies this`mPos
      ensures Valid() && Reads(Get16(mBuffer[..], old(mPos)), r)
    {
      var _ :- CheckAvailableSpace(2);
      var value: int := mBuffer[mPos];
      value := value * 0x100;
      value := value + mBuffer[mPos + 1];
      mPos := mPos + 2;
      return Ok(value);
    }

    method Get32Bits() returns (r: Result<uint>)
      requires Valid()
      modifies this`mPos
      ensures Valid() && Reads(Get32(mBuffer[..], old(mPos)), r)
    {
      var _ :- CheckAvailableSpace(4);
      var value: int := 0;
      value := value + mBuffer[mPos] as int * 0x100_0000;
      value := value + mBuffer[mPos + 1] as int * 0x1_0000;
      value := value + mBuffer[mPos + 2] as int * 0x100;
      value := value + mBuffer[mPos + 3];
      mPos := mPos + 4;
      return Ok(value);
    }

    method TakeBytes(count: nat) returns (r: Result<seq<byte>>)
      requires Valid()
      modifies this`mPos
      ensures Valid() && Reads(GetBytes(mBuffer[..], old(mPos), count), r)
    {
      var _ :- CheckAvailableSpace(count);
      var result := mBuffer[mPos..mPos + count];
      mPos := mPos + count;
      return Ok(result);
    }

    /** Every put method writes its octets at the cursor, or writes nothing for want of room. */
    method PutBytes(data: seq<byte>) returns (r: Result<()>)
      requires Valid()
      modifies mBuffer, this`mPos
      ensures Valid()
      ensures if old(mPos) + |data| <= mBuffer.Length
              then r == Ok(()) && Holds(old(Written()) + data, old(mBuffer[..]))
              else r == Throw(BehindBuffer) && Holds(old(Written()), old(mBuffer[..]))
    {
      if |data| == 0 {
        return Ok(());
      }
      var _ :- CheckAvailableSpace(|data|);
      forall i | 0 <= i < |data| {
        mBuffer[mPos + i] := data[i];
      }
      mPos := mPos + |data|;
      return Ok(());
    }

    method Put8Bits(value: byte) returns (r: Result<()>)
      requires Valid()
      modifies mBuffer, this`mPos
      ensures Valid()
      ensures if old(mPos) + 1 <= mBuffer.Length
              then r == Ok(()) && Holds(old(Written()) + [value], old(mBuffer[..]))
              else r == Throw(BehindBuffer) && Holds(old(Written()), old(mBuffer[..]))
    {
      var _ :- CheckAvailableSpace(1);
      mBuffer[mPos] := value;
      mPos := mPos + 1;
      return Ok(());
    }

    method Put16Bits(value: nat) returns (r: Result<()>)
      requires Valid()
      modifies mBuffer, this`mPos
      ensures Valid()
      ensures if old(mPos) + 2 <= mBuffer.Length
              then r == Ok(()) && Holds(old(Written()) + U16(value), old(mBuffer[..]))
              else r == Throw(BehindBuffer) && Holds(old(Written()), old(mBuffer[..]))
    {
      var _ :- CheckAvailableSpace(2);
      mBuffer[mPos] := value / 0x100 % 0x100;
      mPos := mPos + 1;
      mBuffer[mPos] := value % 0x100;
      mPos := mPos + 1;
      return Ok(());
    }

    method Put32Bits(value: nat) returns (r: Result<()>)
      requires Valid()
      modifies mBuffer, this`mPos
      ensures Valid()
      ensures if old(mPos) + 4 <= mBuffer.Length
              then r == Ok(()) && Holds(old(Written()) + U32(value), old(mBuffer[..]))
              else r == Throw(BehindBuffer) && Holds(old(Written()), old(mBuffer[..]))
    {
      var _ :- CheckAvailableSpace(4);
      mBuffer[mPos] := value / 0x100_0000 % 0x100;
      mPos := mPos + 1;
      mBuffer[mPos] := value / 0x1_0000 % 0x100;
      mPos := mPos + 1;
      mBuffer[mPos] := value / 0x100 % 0x100;
      mPos := mPos + 1;
      mBuffer[mPos] := value % 0x100;
      mPos := mPos + 1;
      return Ok(());
    }

    /** Puts a 32-bit field behind the octets `W` that a sequence of puts has written over `before`. */
    method PutNext32Bits(value: nat, ghost W: seq<byte>, ghost before: seq<byte>) returns (r: Result<()>)
      requires Valid() && Holds(W, before)
      modifies mBuffer, this`mPos
      ensures Valid()
      ensures if |W| + 4 <= mBuffer.Length then r == Ok(()) && Holds(W + U32(value), before)
              else r == Throw(BehindBuffer) && Holds(W, before)
    {
      ghost var mid := mBuffer[..];
      r := Put32Bits(value);
      HoldsOver(W, Written(), before, mid);
    }

    // ---------- character strings ----------

    method GetDnsCharacterString() returns (r: Result<seq<byte>>)
      requires Valid()
      modifies this`mPos
      ensures Valid() && Reads(GetCharString(mBuffer[..], old(mPos)), r)
    {
      var result: seq<byte> := [];
      var stringLen :- Get8Bits();
      assert mBuffer[..][mPos..mPos] == [];
      if stringLen > 0 {
        var octets :- TakeBytes(stringLen);
        result := result + octets;
        assert result == octets;
      }
      return Ok(result);
    }

    method PutDnsCharacterString(value: seq<byte>) returns (r: Result<()>)
      requires Valid()
      modifies mBuffer, this`mPos
      ensures Valid()
      ensures Appended(Ok(old(Written()) + CharString(value)), old(mBuffer[..]), old(mPos), r)
    {
      ghost var P := Written();
      var _ :- Put8Bits(|value| % 0x100);
      var _ :- PutBytes(value);
      assert P + [|value| % 0x100] + value == P + CharString(value);
      return Ok(());
    }

    // ---------- reading domain names ----------

    /** The loop of `getDnsDomainName`, up to the zero octet or to the jump that a pointer makes; a
        pointer always ends the loop. Returns the text and, after a jump, the saved position. */
    method ReadLabels(compressionAllowed: bool) returns (r: Result<(seq<byte>, Option<nat>)>)
      requires Valid()
      modifies this`mPos
      ensures Valid()
      ensures
        match Scan(mBuffer[..], old(mPos), compressionAllowed, [])
        case Bad(e) => r == Throw(e)
        case End(text, next) => r == Ok((text, None)) && mPos == next
        case Link(text, addr, next) => r == Ok((text, Some(next))) && mPos == addr
    {
      ghost var b := mBuffer[..];
      var domain: seq<byte> := [];
      ghost var outcome := Scan(b, mPos, compressionAllowed, []);
      while true
        invariant Valid() && mBuffer[..] == b && outcome == Scan(b, mPos, compressionAllowed, domain)
        decreases mBuffer.Length - mPos
      {
        var round :- ReadItem(compressionAllowed, domain);
        match round
        case Ended => return Ok((domain, None));
        case Jumped(saveBuffPos) => return Ok((domain, Some(saveBuffPos)));
        case Grown(text) => domain := text;
      }
    }

    /** One round of the loop, with `domain` the text read so far. */
    method ReadItem(compressionAllowed: bool, domain: seq<byte>) returns (r: Result<Round>)
      requires Valid()
      modifies this`mPos
      ensures Valid()
      ensures
        match ItemAt(mBuffer[..], old(mPos))
        case Wrong(e) => r == Throw(e)
        case Zero => r == Ok(Ended) && mPos == old(mPos) + 1
        case Text(octets, next) => r == Ok(Grown(Glue(domain, octets))) && mPos == next
        case Pointer =>
          match ReadPointer(mBuffer[..], old(mPos), compressionAllowed, domain)
          case Bad(e) => r == Throw(e)
          case End(_, _) => false
          case Link(_, addr, next) => r == Ok(Jumped(next)) && mPos == addr
    {
      var ctrlCode :- Get8Bits();
      if ctrlCode == 0 {
        return Ok(Ended);
      } else if ctrlCode / 64 == 3 {
        var saveBuffPos :- Jump(ctrlCode, compressionAllowed, domain);
        return Ok(Jumped(saveBuffPos));
      }
      var text :- ReadLabel(ctrlCode, domain);
      return Ok(Grown(text));
    }

    /** The jump that the pointer makes whose first octet has been read; returns the saved position. */
    method Jump(ctrlCode: byte, compressionAllowed: bool, ghost domain: seq<byte>) returns (r: Result<nat>)
      requires Valid() && mPos > 0 && mBuffer[mPos - 1] == ctrlCode && ctrlCode / 64 == 3
      modifies this`mPos
      ensures Valid()
      ensures
        match ReadPointer(mBuffer[..], old(mPos) - 1, compressionAllowed, domain)
        case Bad(e) => r == Throw(e)
        case End(_, _) => false
        case Link(_, addr, next) => r == Ok(next) && mPos == addr
    {
      if !compressionAllowed {
        return Throw(LinkNotAllowed);
      }
      var ctrlCode2 :- Get8Bits();
      var linkAddr := ctrlCode as int % 64 * 0x100 + ctrlCode2;
      var saveBuffPos := mPos;
      var _ :- SetPos(linkAddr);
      return Ok(saveBuffPos);
    }

    /** Appends the label whose length octet has been read to the text read so far. */
    method ReadLabel(ctrlCode: byte, text: seq<byte>) returns (r: Result<seq<byte>>)
      requires Valid() && mPos > 0 && mBuffer[mPos - 1] == ctrlCode && 0 < ctrlCode < 0xC0
      modifies this`mPos
      ensures Valid()
      ensures
        match ItemAt(mBuffer[..], old(mPos) - 1)
        case Wrong(e) => r == Throw(e)
        case Text(octets, next) => r == Ok(Glue(text, octets)) && mPos == next
        case _ => false
    {
      if ctrlCode > MAX_LABEL_LEN {
        return Throw(LabelTooLong);
      }
      var domain := text;
      if |domain| > 0 {
        domain := domain + [DOT];
      }
      var octets :- TakeBytes(ctrlCode);
      domain := domain + octets;
      assert domain == Glue(text, octets);
      return Ok(domain);
    }

    method GetDnsDomainName(compressionAllowed: bool) returns (r: Result<seq<byte>>)
      requires Valid()
      modifies this`mPos, this`mLinkPos
      ensures Valid() && Reads(DecodeName(mBuffer[..], old(mPos), old(mLinkPos), compressionAllowed), r)
      ensures r.Ok? ==> mLinkPos == old(mLinkPos)
      ensures r == Throw(LinkLoop) ==> mLinkPos == []
      decreases Unvisited(mBuffer[..], mLinkPos)
    {
      if mPos in mLinkPos {
        mLinkPos := [];
        return Throw(LinkLoop);
      }
      mLinkPos := mLinkPos + [mPos];
      var labels :- ReadLabels(compressionAllowed);
      var (domain, saveBuffPos) := labels;
      if saveBuffPos.Some? {
        assert old(mPos) in old(Unvisited(mBuffer[..], mLinkPos)) && old(mPos) !in Unvisited(mBuffer[..], mLinkPos);
        ghost var text := domain;
        var linkDomain :- GetDnsDomainName(true);
        var _ :- SetPos(saveBuffPos.value);
        if |domain| > 0 {
          domain := domain + [DOT];
        }
        domain := domain + linkDomain;
        assert domain == Glue(text, linkDomain);
      }
      mLinkPos := mLinkPos[..|mLinkPos| - 1];
      if |domain| > MAX_DOMAIN_LEN {
        return Throw(NameTooLong);
      }
      return Ok(domain);
    }

    // ---------- writing domain names ----------

    /** Looks for `subDomain` among the octets before the cursor, from the beginning. */
    method FindTip(subDomain: seq<byte>) returns (tip: Option<nat>)
      requires Valid()
      ensures tip == FirstMatch(Written(), subDomain)
    {
      var buffLen := mPos;
      if buffLen > |subDomain| {
        buffLen := buffLen - |subDomain|;
        var buffPos := 0;
        while buffPos < buffLen
          invariant buffPos <= buffLen
          invariant FirstMatch(Written(), subDomain) == FindFrom(Written(), subDomain, buffPos)
        {
          assert Written()[buffPos..buffPos + |subDomain|] == mBuffer[buffPos..buffPos + |subDomain|];
          if mBuffer[buffPos..buffPos + |subDomain|] == subDomain {
            return Some(buffPos);
          }
          buffPos := buffPos + 1;
        }
      }
      return None;
    }

    /** A pointer to the rest of the name, or its next label. */
    method PutTipOrLabel(s: Scratch, i: nat, ghost ls: seq<Label>, ghost tail: seq<byte>)
      returns (found: bool, r: Result<()>)
      requires Valid() && s.Describes(ls, tail) && i < s.count
      modifies mBuffer, this`mPos
      ensures Valid() && ShortLabels(ls[i..])
      ensures
        var tip := FirstMatch(old(Written()), Flat(ls[i..]) + tail);
        var Q := old(Written()) + if tip.Some? then U16(0xC000 + tip.value) else LabelWire(ls[i]);
        && found == tip.Some?
        && if |Q| <= mBuffer.Length then r == Ok(()) && Holds(Q, old(mBuffer[..]))
           else r == Throw(BehindBuffer) && Holds(old(Written()), old(mBuffer[..]))
    {
      var subDomain := s.SubDomain(i, ls, tail);
      var tip := FindTip(subDomain);
      found := tip.Some?;
      if tip.Some? {
        r := Put16Bits(0xC000 + tip.value);
      } else {
        var labelLen := subDomain[0];
        r := PutBytes(subDomain[..labelLen + 1]);
      }
    }

    /** One round of the compressing loop over a buffer that holds `W` over `before`: it writes all
        that is left of the name, or the rest of the name remains to be written. */
    method PutRound(s: Scratch, i: nat, ghost ls: seq<Label>, ghost tail: seq<byte>,
                    ghost W: seq<byte>, ghost before: seq<byte>)
      returns (found: bool, r: Result<()>)
      requires Valid() && s.Describes(ls, tail) && i < s.count && Holds(W, before)
      modifies mBuffer, this`mPos
      ensures Valid() && ShortLabels(ls[i..]) && ShortLabels(ls[i + 1..])
      ensures W <= Written() && Holds(Written(), before) && (r == Ok(()) || r == Throw(BehindBuffer))
      ensures
        var Q := AppendLabels(W, ls[i..], tail);
        if r.Throw? then |Q| > mBuffer.Length
        else if found then Q == Written() else Q == AppendLabels(Written(), ls[i + 1..], tail)
    {
      ghost var mid := mBuffer[..];
      found, r := PutTipOrLabel(s, i, ls, tail);
      HoldsOver(W, Written(), before, mid);
      assert ls[i..][0] == ls[i] && ls[i..][1..] == ls[i + 1..];
    }

    /** Writes the labels in the scratch array until the rest is found in the buffer. */
    method PutCompressed(s: Scratch, ghost ls: seq<Label>, ghost tail: seq<byte>) returns (r: Result<()>)
      requires Valid() && s.Describes(ls, tail) && mBuffer != s.domain
      modifies mBuffer, this`mPos
      ensures Valid()
      ensures var Q := AppendLabels(old(Written()), ls, tail);
        if |Q| <= mBuffer.Length then r == Ok(()) && Holds(Q, old(mBuffer[..]))
        else r == Throw(BehindBuffer) && mBuffer[..old(mPos)] == old(Written())
    {
      ghost var P, before := Written(), mBuffer[..];
      ghost var Q := AppendLabels(P, ls, tail);
      var i := 0;
      assert ls[0..] == ls;
      while i < s.count
        invariant i <= s.count && Valid()
        invariant P <= Written() && Holds(Written(), before)
        invariant Q == AppendLabels(Written(), ls[i..], tail)
      {
        var found;
        found, r := PutRound(s, i, ls, tail, Written(), before);
        if found || r.Throw? {
          assert mBuffer[..|P|] == Written()[..|P|] == P;
          return;
        }
        i := i + 1;
      }
      ghost var W, mid := Written(), mBuffer[..];
      assert ls[i..] == [] && Q == W + [0];
      r := Put8Bits(0);
      HoldsOver(W, Written(), before, mid);
    }

    /** Holding more over a buffer that held less over `before` is holding more over `before`. */
    lemma HoldsOver(W: seq<byte>, Q: seq<byte>, before: seq<byte>, mid: seq<byte>)
      requires |W| <= |before| && mid == W + before[|W|..] && |W| <= |Q| && Holds(Q, mid)
      ensures Holds(Q, before)
    {
    }

    method PutDnsDomainName(value: seq<byte>, compressionAllowed: bool) returns (r: Result<()>)
      requires Valid()
      modifies mBuffer, this`mPos
      ensures Valid()
      ensures
        match AppendName(old(Written()), value, compressionAllowed)
        case Throw(e) => r == Throw(e) && Holds(old(Written()), old(mBuffer[..]))
        case Ok(Q) =>
          if |Q| <= mBuffer.Length then r == Ok(()) && Holds(Q, old(mBuffer[..]))
          else r == Throw(BehindBuffer) && mBuffer[..old(mPos)] == old(Written())
    {
      if |value| > MAX_DOMAIN_LEN {
        return Throw(NameTooLong);
      }
      if |value| == 0 {
        r := Put8Bits(0);
        return;
      }
      var scratch :- ConvertName(value);
      if compressionAllowed {
        r := PutCompressed(scratch, ScannedLabels(value), Terminator(value));
      } else {
        r := PutBytes(scratch.domain[..scratch.size]);
      }
    }

    /** The scratch form of `value`: |4|b|l|u|e|3|i|m|s|2|c|z|0| for blue.ims.cz. The length octet of
        a label is filled in when its end is found. */
    static method ConvertName(value: seq<byte>) returns (r: Result<Scratch>)
      requires 0 < |value| <= MAX_DOMAIN_LEN
      ensures Converted(r, value)
      ensures r.Ok? ==> fresh(r.value.domain) && fresh(r.value.indexes)
    {
      var domain := new byte[MAX_DOMAIN_LEN + 1];
      var indexes := new nat[MAX_DOMAIN_LEN + 1];
      var labelLen: nat, labelLenPos: nat, domainPos: nat, ix: nat, count: nat := 0, 0, 1, 0, 0;
      ghost var done: seq<Label>, cur: Label := [], [];
      assert value[..0] == [];
      while true
        invariant ix <= |value| && domainPos == ix + 1 && count == |done| <= ix
        invariant LabelsRead(value, ix, done, cur) && labelLen == |cur|
        invariant labelLenPos == |Flat(done)| && domainPos == labelLenPos + 1 + labelLen
        invariant OpenLabel(domain[..], done, cur) && Offsets(indexes[..], done)
        decreases |value| - ix
      {
        if ix == |value| || value[ix] == DOT {
          var ended;
          ended, r := EndLabel(domain, indexes, value, ix, labelLenPos, labelLen, count, done, cur);
          if ended {
            return;
          }
          count := count + 1;
          labelLenPos := domainPos;
          labelLen := 0;
          done, cur := done + [cur], [];
        } else {
          labelLen := labelLen + 1;
          GrowLabel(domain, domainPos, value, ix, done, cur);
          cur := cur + [value[ix]];
        }
        domainPos := domainPos + 1;
        ix := ix + 1;
      }
    }

    /** What the scan loop does at a dot and at the end of the text; `ended` when it returns or throws. */
    static method EndLabel(domain: array<byte>, indexes: array<nat>, value: seq<byte>, ix: nat,
                           labelLenPos: nat, labelLen: nat, count: nat, ghost done: seq<Label>, ghost cur: Label)
      returns (ended: bool, r: Result<Scratch>)
      requires 0 < |value| <= MAX_DOMAIN_LEN && domain.Length == indexes.Length == MAX_DOMAIN_LEN + 1
      requires ix <= |value| && (ix == |value| || value[ix] == DOT) && count == |done| <= ix
      requires LabelsRead(value, ix, done, cur) && labelLen == |cur|
      requires labelLenPos == |Flat(done)| && ix == labelLenPos + labelLen
      requires OpenLabel(domain[..], done, cur) && Offsets(indexes[..], done)
      modifies domain, indexes
      ensures if ended then Converted(r, value) && (r.Ok? ==> r.value.domain == domain && r.value.indexes == indexes)
              else
                && ix < |value| && LabelsRead(value, ix + 1, done + [cur], []) && |Flat(done + [cur])| == ix + 1
                && OpenLabel(domain[..], done + [cur], []) && Offsets(indexes[..], done + [cur])
    {
      r := Throw(LabelTooLong);
      ScannedSoFar(value, ix);
      if labelLen > MAX_LABEL_LEN {
        assert ScannedLabels(value)[|done|] == cur;
        return true, r;
      }
      CloseLabel(domain, indexes, labelLenPos, labelLen, count, done, cur);
      if ix >= |value| - 1 {
        r := Terminate(domain, indexes, ix + 1, count + 1, ix == |value|, done + [cur]);
        return true, r;
      }
      SplitNext(value, ix);
      return false, r;
    }

    /** Copies an octet of the text into the label that is open. */
    static method GrowLabel(domain: array<byte>, domainPos: nat, value: seq<byte>, ix: nat,
                            ghost done: seq<Label>, ghost cur: Label)
      requires ShortLabels(done) && OpenLabel(domain[..], done, cur)
      requires domainPos == |Flat(done)| + 1 + |cur| < domain.Length
      requires ix < |value| && value[ix] != DOT && LabelsRead(value, ix, done, cur)
      modifies domain
      ensures OpenLabel(domain[..], done, cur + [value[ix]]) && LabelsRead(value, ix + 1, done, cur + [value[ix]])
    {
      hide Flat;
      ghost var d := domain[..];
      domain[domainPos] := value[ix];
      assert domain[..] == d[domainPos := value[ix]];
      LabelGrows(d, done, cur, value[ix]);
      SplitNext(value, ix);
      assert (done + [cur])[..|done|] == done;
    }

    /** Fills in the length octet of the label that has ended, and notes its offset. */
    static method CloseLabel(domain: array<byte>, indexes: array<nat>,
                             labelLenPos: nat, labelLen: nat, count: nat, ghost done: seq<Label>, ghost cur: Label)
      requires ShortLabels(done) && OpenLabel(domain[..], done, cur) && Offsets(indexes[..], done)
      requires labelLen == |cur| <= MAX_LABEL_LEN && labelLenPos == |Flat(done)| && count == |done| < indexes.Length
      modifies domain, indexes
      ensures ShortLabels(done + [cur]) && |Flat(done + [cur])| == labelLenPos + 1 + labelLen
      ensures domain[..labelLenPos + 1 + labelLen] == Flat(done + [cur])
      ensures labelLenPos + 1 + labelLen < domain.Length ==> OpenLabel(domain[..], done + [cur], [])
      ensures Offsets(indexes[..], done + [cur])
    {
      ghost var d, o := domain[..], indexes[..];
      domain[labelLenPos] := labelLen;
      indexes[count] := labelLenPos;
      assert domain[..] == d[labelLenPos := labelLen as byte] && indexes[..] == o[|done| := labelLenPos];
      LabelCloses(d, done, cur);
      OffsetNoted(o, done, cur);
    }

    /** The end of the scan: a zero octet, unless a dot closed the text. */
    static method Terminate(domain: array<byte>, indexes: array<nat>,
                            domainPos: nat, count: nat, zero: bool, ghost ls: seq<Label>) returns (r: Result<Scratch>)
      requires ShortLabels(ls) && domainPos == |Flat(ls)| <= domain.Length && domain[..domainPos] == Flat(ls)
      requires count == |ls| && Offsets(indexes[..], ls)
      modifies domain
      ensures r == if zero && domainPos == domain.Length then Throw(ScratchOverrun)
                   else Ok(Scratch(domain, if zero then domainPos + 1 else domainPos, indexes, count))
      ensures r.Ok? ==> r.value.Describes(ls, if zero then [0] else [])
    {
      if !zero {
        return Ok(Scratch(domain, domainPos, indexes, count));
      }
      if domainPos == domain.Length {
        return Throw(ScratchOverrun);  // domain[256] does not exist
      }
      domain[domainPos] := 0;
      assert domain[..domainPos + 1] == Flat(ls) + [0];
      return Ok(Scratch(domain, domainPos + 1, indexes, count));
    }
  }

  /** How a round of the reading loop ends: at the zero octet, after a jump, or with a longer text. */
  datatype Round = Ended | Jumped(saveBuffPos: nat) | Grown(text: seq<byte>)

  /** The outcome of the scan loop. */
  ghost predicate Converted(r: Result<Scratch>, value: seq<byte>)
    reads if r.Ok? then {r.value.domain} else {}
    reads if r.Ok? then {r.value.indexes} else {}
  {
    var ls := ScannedLabels(value);
    if !ShortLabels(ls) then r == Throw(LabelTooLong)
    else if |value| == MAX_DOMAIN_LEN && !EndsWithDot(value) then r == Throw(ScratchOverrun)
    else r.Ok? && r.value.Describes(ls, Terminator(value))
  }

  /** The first `ix` octets of the text are the labels `done` and the beginning `cur` of another. */
  ghost predicate LabelsRead(value: seq<byte>, ix: nat, done: seq<Label>, cur: Label)
    requires ix <= |value|
  {
    Split(value[..ix]) == done + [cur] && ShortLabels(done) && (ix == |value| ==> !EndsWithDot(value))
  }

  /** The labels `done` are complete in `d`, and `cur` stands behind an empty length octet. */
  ghost predicate OpenLabel(d: seq<byte>, done: seq<Label>, cur: Label)
    requires ShortLabels(done)
  {
    var p := |Flat(done)|;
    p + 1 + |cur| <= |d| && d[..p] == Flat(done) && d[p + 1..p + 1 + |cur|] == cur
  }

  ghost predicate Offsets(o: seq<nat>, ls: seq<Label>)
    requires ShortLabels(ls)
  {
    |ls| <= |o| && forall j | 0 <= j < |ls| :: o[j] == |Flat(ls[..j])|
  }

  lemma LabelGrows(d: seq<byte>, done: seq<Label>, cur: Label, c: byte)
    requires ShortLabels(done) && OpenLabel(d, done, cur) && |Flat(done)| + 1 + |cur| < |d|
    ensures OpenLabel(d[|Flat(done)| + 1 + |cur| := c], done, cur + [c])
  {
  }

  lemma LabelCloses(d: seq<byte>, done: seq<Label>, cur: Label)
    requires ShortLabels(done) && OpenLabel(d, done, cur) && |cur| <= MAX_LABEL_LEN
    ensures
      var ls, p := done + [cur], |Flat(done)|;
      var d' := d[p := |cur|];
      && ShortLabels(ls) && |Flat(ls)| == p + 1 + |cur| && d'[..|Flat(ls)|] == Flat(ls)
      && (|Flat(ls)| < |d| ==> OpenLabel(d', ls, []))
  {
    FlatConcat(done, [cur]);
    assert Flat([cur]) == [|cur|] + cur;
    FillIn(d, Flat(done), |cur|, cur);
  }

  lemma FillIn(d: seq<byte>, head: seq<byte>, c: byte, cur: seq<byte>)
    requires |head| + 1 + |cur| <= |d| && d[..|head|] == head && d[|head| + 1..|head| + 1 + |cur|] == cur
    ensures d[|head| := c][..|head| + 1 + |cur|] == head + ([c] + cur)
  {
  }

  lemma OffsetNoted(o: seq<nat>, done: seq<Label>, cur: Label)
    requires ShortLabels(done) && Offsets(o, done) && |cur| <= MAX_LABEL_LEN && |done| < |o|
    ensures ShortLabels(done + [cur]) && Offsets(o[|done| := |Flat(done)|], done + [cur])
  {
    var ls := done + [cur];
    forall j | 0 <= j < |ls| ensures o[|done| := |Flat(done)|][j] == |Flat(ls[..j])| {
      assert ls[..j] == done[..j] && done[..|done|] == done;
    }
  }

  /** The local arrays of `putDnsDomainName`. */
  datatype Scratch = Scratch(domain: array<byte>, size: nat, indexes: array<nat>, count: nat) {
    /** The array holds the wire form of `ls` and the offset of every label, in order. */
    ghost predicate Describes(ls: seq<Label>, tail: seq<byte>)
      reads domain, indexes
    {
      && ShortLabels(ls) && size <= domain.Length && count == |ls| <= indexes.Length
      && domain[..size] == Flat(ls) + tail && Offsets(indexes[..], ls)
    }

    /** The part of the scratch form from the `i`-th label on. */
    method SubDomain(i: nat, ghost ls: seq<Label>, ghost tail: seq<byte>) returns (subDomain: seq<byte>)
      requires Describes(ls, tail) && i < count
      ensures ShortLabels(ls[i..]) && subDomain == Flat(ls[i..]) + tail
      ensures |subDomain| > |ls[i]| && subDomain[0] == |ls[i]| && subDomain[..|ls[i]| + 1] == LabelWire(ls[i])
      ensures ls[i..][0] == ls[i] && ls[i..][1..] == ls[i + 1..]
    {
      FlatSuffix(ls, i, tail);
      subDomain := domain[indexes[i]..size];
      assert subDomain == domain[..size][indexes[i]..];
    }
  }
}
