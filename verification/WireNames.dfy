/** What a domain name is, in terms of the octets of a buffer alone, and that the decoder reads exactly
    that (RFC 1035 sections 3.1 and 4.1.4). */
module WireNames {
  import opened Octets
  import opened Names
  import opened LinkLoops

  /** Labels stand one behind another from `p` to `e`: a length octet from 1 to 63, and so many octets. */
  predicate LabelsStand(b: seq<byte>, p: nat, ls: seq<Label>, e: nat)
    decreases |ls|
  {
    if ls == [] then p == e < |b|
    else
      var n := |ls[0]|;
      && p < |b| && 1 <= b[p] <= 63 && n == b[p] && p + 1 + n <= |b| && b[p + 1..p + 1 + n] == ls[0]
      && LabelsStand(b, p + 1 + n, ls[1..], e)
  }

  /** Labels with dots between them. */
  function Spelling(ls: seq<Label>): seq<byte> {
    if ls == [] then [] else if |ls| == 1 then ls[0] else ls[0] + [46] + Spelling(ls[1..])
  }

  /** Labels without a pointer between them, and where they begin and end. */
  datatype Stretch = Stretch(start: nat, labels: seq<Label>, end: nat)

  /** A pointer at `e`, with two high bits that are ones and fourteen bits that lead to `target`; it is not
      the last thing in the buffer. */
  predicate Points(b: seq<byte>, e: nat, target: nat) {
    e + 2 < |b| && b[e] >= 192 && target == (b[e] as int - 192) * 256 + b[e + 1] < |b|
  }

  /** Stretches that are joined by pointers, the last of which has a zero octet behind it. */
  predicate Chain(b: seq<byte>, parts: seq<Stretch>)
    decreases |parts|
  {
    parts != [] &&
    var s := parts[0];
    && LabelsStand(b, s.start, s.labels, s.end) && s.end < |b|
    && if |parts| == 1 then b[s.end] == 0 else Points(b, s.end, parts[1].start) && Chain(b, parts[1..])
  }

  /** The labels of all stretches with dots between them; a last stretch without labels leaves its dot. */
  function TextOf(parts: seq<Stretch>): seq<byte>
    requires parts != []
    decreases |parts|
  {
    var t := Spelling(parts[0].labels);
    if |parts| == 1 then t
    else if parts[0].labels == [] then TextOf(parts[1..])
    else t + [46] + TextOf(parts[1..])
  }

  /** The name `text` of at most 255 octets stands in `b` from `p` to `q`: behind its zero octet, or behind
      its first pointer. */
  ghost predicate NameStands(b: seq<byte>, p: nat, text: seq<byte>, q: nat) {
    exists parts: seq<Stretch> :: Chain(b, parts) && Spells(parts, p, text, q)
  }

  predicate Spells(parts: seq<Stretch>, p: nat, text: seq<byte>, q: nat) {
    && parts != [] && parts[0].start == p && text == TextOf(parts) && |text| <= 255
    && q == parts[0].end + (if |parts| == 1 then 1 else 2)
  }

  // ---------- labels ----------

  /** What reading labels adds to the text read so far. */
  function Added(acc: seq<byte>, ls: seq<Label>): seq<byte> {
    if ls == [] then acc else if acc == [] then Spelling(ls) else acc + [46] + Spelling(ls)
  }

  lemma AddedStep(acc: seq<byte>, ls: seq<Label>)
    requires ls != [] && ls[0] != []
    ensures Added(Glue(acc, ls[0]), ls[1..]) == Added(acc, ls)
  {
    if |ls| > 1 && acc != [] {
      assert acc + [46] + ls[0] + [46] + Spelling(ls[1..]) == acc + [46] + (ls[0] + [46] + Spelling(ls[1..]));
    }
  }

  lemma LabelScanned(b: seq<byte>, p: nat, links: bool, acc: seq<byte>)
    requires p < |b| && 1 <= b[p] <= 63 && p + 1 + b[p] <= |b|
    ensures var q := p + 1 + b[p]; Scan(b, p, links, acc) == Scan(b, q, links, Glue(acc, b[p + 1..q]))
  {
  }

  lemma {:induction false} LabelsScanned(b: seq<byte>, p: nat, links: bool, acc: seq<byte>, ls: seq<Label>, e: nat)
    requires LabelsStand(b, p, ls, e)
    ensures Scan(b, p, links, acc) == Scan(b, e, links, Added(acc, ls)) && e < |b|
    decreases |ls|
  {
    hide Scan, Added, Glue, Spelling;
    if ls == [] {
      NothingAdded(acc);
    } else {
      LabelScanned(b, p, links, acc);
      LabelsScanned(b, p + 1 + |ls[0]|, links, Glue(acc, ls[0]), ls[1..], e);
      AddedStep(acc, ls);
    }
  }

  lemma NothingAdded(acc: seq<byte>)
    ensures Added(acc, []) == acc
  {
  }

  lemma OneMoreLabel(b: seq<byte>, p: nat, ls: seq<Label>, e: nat)
    requires p < |b| && 1 <= b[p] <= 63 && p + 1 + b[p] <= |b| && LabelsStand(b, p + 1 + b[p], ls, e)
    ensures LabelsStand(b, p, [b[p + 1..p + 1 + b[p]]] + ls, e)
  {
    assert ([b[p + 1..p + 1 + b[p]]] + ls)[1..] == ls;
  }

  /** What the reading loop has read when it does not fail. */
  lemma {:induction false} LabelsOf(b: seq<byte>, p: nat, links: bool, acc: seq<byte>)
    returns (ls: seq<Label>, e: nat)
    requires !Scan(b, p, links, acc).Bad?
    ensures LabelsStand(b, p, ls, e) && e < |b| && (b[e] == 0 || b[e] >= 192)
    ensures Scan(b, p, links, acc) == Scan(b, e, links, Added(acc, ls))
    decreases |b| - p
  {
    hide Scan, Added, Glue, Spelling;
    var next := NextItem(b, p, links, acc);
    if next == p {
      ls, e := [], p;
      NothingAdded(acc);
    } else {
      var l := b[p + 1..next];
      ls, e := LabelsOf(b, next, links, Glue(acc, l));
      OneMoreLabel(b, p, ls, e);
      AddedStep(acc, [l] + ls);
      assert ([l] + ls)[1..] == ls;
      ls := [l] + ls;
    }
  }

  /** The loop stops, or reads a label. */
  lemma NextItem(b: seq<byte>, p: nat, links: bool, acc: seq<byte>) returns (next: nat)
    requires !Scan(b, p, links, acc).Bad?
    ensures p < |b| && p <= next <= |b|
    ensures next == p ==> b[p] == 0 || b[p] >= 192
    ensures next > p ==> 1 <= b[p] <= 63 && next == p + 1 + b[p]
    ensures next > p ==> Scan(b, p, links, acc) == Scan(b, next, links, Glue(acc, b[p + 1..next]))
  {
    hide Glue;
    var i := ItemAt(b, p);
    next := if i.Text? then i.next else p;
  }

  lemma EndScanned(b: seq<byte>, e: nat, links: bool, acc: seq<byte>)
    requires e < |b| && (b[e] == 0 || b[e] >= 192)
    ensures var r := Scan(b, e, links, acc);
      if b[e] == 0 then r == End(acc, e + 1)
      else if links && e + 1 < |b| && (b[e] as int - 192) * 256 + b[e + 1] < |b|
      then r == Link(acc, (b[e] as int - 192) * 256 + b[e + 1], e + 2)
      else r.Bad?
  {
  }

  // ---------- chains ----------

  lemma LabelsAreSome(b: seq<byte>, p: nat, ls: seq<Label>, e: nat)
    requires LabelsStand(b, p, ls, e)
    ensures ls == [] <==> Spelling(ls) == []
    ensures Added([], ls) == Spelling(ls)
  {
  }

  lemma TextStep(b: seq<byte>, parts: seq<Stretch>)
    requires |parts| > 1 && LabelsStand(b, parts[0].start, parts[0].labels, parts[0].end)
    ensures TextOf(parts) == Glue(Spelling(parts[0].labels), TextOf(parts[1..]))
    ensures |TextOf(parts[1..])| <= |TextOf(parts)|
  {
    hide Spelling;
    LabelsAreSome(b, parts[0].start, parts[0].labels, parts[0].end);
  }

  /** Following pointers reads the chain. */
  lemma {:induction false} ChainFollowed(b: seq<byte>, parts: seq<Stretch>, text: seq<byte>, q: nat)
    requires Chain(b, parts) && Spells(parts, parts[0].start, text, q)
    ensures Follow(b, parts[0].start, true, |parts|) == Some(Parsed(text, q))
    decreases |parts|
  {
    hide LabelsStand, Spelling, Scan, Added, Follow;
    var s := parts[0];
    LabelsScanned(b, s.start, true, [], s.labels, s.end);
    LabelsAreSome(b, s.start, s.labels, s.end);
    EndScanned(b, s.end, true, Spelling(s.labels));
    if |parts| == 1 {
      FollowedToEnd(b, s.start, text, q);
    } else {
      var rest := parts[1..];
      var e := rest[0].end + if |rest| == 1 then 1 else 2;
      TextStep(b, parts);
      ChainFollowed(b, rest, TextOf(rest), e);
      FollowedOn(b, s.start, |rest|, Spelling(s.labels), rest[0].start, q, TextOf(rest), e);
    }
  }

  lemma FollowedToEnd(b: seq<byte>, p: nat, text: seq<byte>, q: nat)
    requires Scan(b, p, true, []) == End(text, q) && |text| <= 255
    ensures Follow(b, p, true, 1) == Some(Parsed(text, q))
  {
    hide Scan;
  }

  lemma FollowedOn(b: seq<byte>, p: nat, fuel: nat, text: seq<byte>, target: nat, q: nat, linked: seq<byte>, e: nat)
    requires Scan(b, p, true, []) == Link(text, target, q) && q < |b| && |Glue(text, linked)| <= 255
    requires Follow(b, target, true, fuel) == Some(Parsed(linked, e))
    ensures Follow(b, p, true, fuel + 1) == Some(Parsed(Glue(text, linked), q))
  {
    hide Scan, Glue;
  }

  /** What has been followed is a chain. */
  lemma {:induction false} ChainOf(b: seq<byte>, p: nat, fuel: nat, text: seq<byte>, q: nat)
    returns (parts: seq<Stretch>)
    requires Follow(b, p, true, fuel) == Some(Parsed(text, q))
    ensures Chain(b, parts) && Spells(parts, p, text, q)
    decreases fuel
  {
    hide LabelsStand, Spelling, Scan;
    var ls, e := LabelsOf(b, p, true, []);
    LabelsAreSome(b, p, ls, e);
    EndScanned(b, e, true, Spelling(ls));
    var s := Scan(b, p, true, []);
    if s.Link? {
      var linked := Follow(b, s.addr, true, fuel - 1).value;
      var rest := ChainOf(b, s.addr, fuel - 1, linked.value, linked.next);
      parts := [Stretch(p, ls, e)] + rest;
      assert parts[1..] == rest;
      TextStep(b, parts);
    } else {
      parts := [Stretch(p, ls, e)];
    }
  }

  /** The decoder accepts a name with pointers, and says which and where it ends, if and only if it stands
      there. */
  lemma NameReadExactly(b: seq<byte>, p: nat, text: seq<byte>, q: nat)
    requires p <= |b|
    ensures DecodeName(b, p, [], true) == Parsed(text, q) <==> NameStands(b, p, text, q)
  {
    hide DecodeName, Follow, Chain, TextOf;
    LoopDetectionExact(b, p, true);
    if DecodeName(b, p, [], true) == Parsed(text, q) {
      var fuel := FuelFor(b, p, [], true);
      var parts := ChainOf(b, p, fuel, text, q);
    }
    if NameStands(b, p, text, q) {
      var parts: seq<Stretch> :| Chain(b, parts) && Spells(parts, p, text, q);
      ChainFollowed(b, parts, text, q);
    }
  }

  /** The same for a name that may not have pointers. */
  ghost predicate PlainNameStands(b: seq<byte>, p: nat, text: seq<byte>, q: nat) {
    exists ls: seq<Label>, e: nat :: LabelsStand(b, p, ls, e) && ClosesPlain(b, ls, e, text, q)
  }

  predicate ClosesPlain(b: seq<byte>, ls: seq<Label>, e: nat, text: seq<byte>, q: nat) {
    e < |b| && b[e] == 0 && text == Spelling(ls) && |text| <= 255 && q == e + 1
  }

  lemma PlainNameReadExactly(b: seq<byte>, p: nat, text: seq<byte>, q: nat)
    requires p <= |b|
    ensures DecodeName(b, p, [], false) == Parsed(text, q) <==> PlainNameStands(b, p, text, q)
  {
    hide LabelsStand, Spelling, Scan;
    if DecodeName(b, p, [], false) == Parsed(text, q) {
      var ls, e := LabelsOf(b, p, false, []);
      LabelsAreSome(b, p, ls, e);
      EndScanned(b, e, false, Spelling(ls));
      assert ClosesPlain(b, ls, e, text, q);
    }
    if PlainNameStands(b, p, text, q) {
      var ls: seq<Label>, e: nat :| LabelsStand(b, p, ls, e) && ClosesPlain(b, ls, e, text, q);
      LabelsScanned(b, p, false, [], ls, e);
      LabelsAreSome(b, p, ls, e);
      EndScanned(b, e, false, Spelling(ls));
    }
  }

  // ---------- what cannot be written ----------

  /** Sixty-four octets of the text have no dot among them. */
  ghost predicate LongRun(t: seq<byte>) {
    exists i: nat :: RunAt(t, i)
  }

  predicate RunAt(t: seq<byte>, i: nat) { i + 64 <= |t| && NoDots(t, i, i + 64) }

  predicate NoDots(t: seq<byte>, i: nat, j: nat)
    requires j <= |t|
  {
    forall k | i <= k < j :: t[k] != 46
  }

  /** How many octets behind the last dot. */
  function LastRun(t: seq<byte>): (n: nat)
    ensures n <= |t| && NoDots(t, |t| - n, |t|) && (n < |t| ==> t[|t| - n - 1] == 46)
  {
    if t == [] || t[|t| - 1] == 46 then 0 else 1 + LastRun(t[..|t| - 1])
  }

  lemma {:induction false} LastLabel(t: seq<byte>)
    ensures |Split(t)[|Split(t)| - 1]| == LastRun(t)
  {
    if t != [] {
      LastLabel(t[..|t| - 1]);
    }
  }

  lemma LongRunStep(t: seq<byte>)
    requires t != []
    ensures LongRun(t) <==> LongRun(t[..|t| - 1]) || LastRun(t) >= 64
  {
    hide LastRun;
    var s := t[..|t| - 1];
    if LongRun(s) {
      var i: nat :| RunAt(s, i);
      assert RunAt(t, i);
    }
    if LastRun(t) >= 64 {
      assert RunAt(t, |t| - 64);
    }
    if LongRun(t) && LastRun(t) < 64 {
      var i: nat :| RunAt(t, i);
      assert i + 64 < |t|;
      assert RunAt(s, i);
    }
  }

  /** The labels of a text have at most 63 octets if and only if no sixty-four octets of it are without a
      dot. */
  lemma {:induction false} ShortLabelsExactly(t: seq<byte>)
    ensures ShortLabels(Split(t)) <==> !LongRun(t)
  {
    hide LongRun;
    if t == [] {
      assert !LongRun(t) by {
        NoRun(t);
      }
    } else {
      var s := t[..|t| - 1];
      ShortLabelsExactly(s);
      LongRunStep(t);
      LastLabel(t);
      LastLabel(s);
      SplitShort(t);
    }
  }

  lemma NoRun(t: seq<byte>)
    requires |t| < 64
    ensures !LongRun(t)
  {
  }

  lemma SplitShort(t: seq<byte>)
    requires t != []
    ensures var ls, ms := Split(t), Split(t[..|t| - 1]);
      ShortLabels(ls) <==> ShortLabels(ms) && |ls[|ls| - 1]| <= MAX_LABEL_LEN
  {
    var ls, ms := Split(t), Split(t[..|t| - 1]);
    if ShortLabels(ls) {
      forall i | 0 <= i < |ms| ensures |ms[i]| <= MAX_LABEL_LEN {
        assert |ms[i]| <= |ls[i]|;
      }
    }
  }

  /** Why a text cannot be written as a name: it has more than 255 octets, sixty-four without a dot, or
      exactly 255 without a dot at the end. */
  ghost function WhyNot(t: seq<byte>): Option<Error> {
    if |t| > 255 then Some(NameTooLong)
    else if LongRun(t) then Some(LabelTooLong)
    else if |t| == 255 && t[254] != 46 then Some(ScratchOverrun)
    else None
  }

  lemma WrittenExactly(P: seq<byte>, t: seq<byte>, compress: bool)
    ensures match AppendName(P, t, compress) case Throw(e) => WhyNot(t) == Some(e) case Ok(_) => WhyNot(t) == None
  {
    hide LongRun, Split, AppendName;
    NameErrorExact(P, t, compress);
    var s := if EndsWithDot(t) then t[..|t| - 1] else t;
    ShortLabelsExactly(s);
    if EndsWithDot(t) {
      LongRunStep(t);
    }
    if t == [] {
      NoRun(t);
    }
  }
}
