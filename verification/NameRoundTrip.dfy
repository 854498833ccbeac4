/** What was put as a domain name is read back: over arbitrary earlier octets, with compression
    pointers into anything, and with two octets of the earlier buffer patched in between. */
module NameRoundTrip {
  import opened Octets
  import opened Names
  import opened NameText

  // ---------- reading plain labels ----------

  /** The wire form of `ls`, zero octet included, stands in `b` at `p`. */
  predicate WireAt(b: seq<byte>, p: nat, ls: seq<Label>)
    decreases |ls|
  {
    if ls == [] then ItemAt(b, p).Zero?
    else ItemAt(b, p) == Text(ls[0], p + 1 + |ls[0]|) && WireAt(b, p + 1 + |ls[0]|, ls[1..])
  }

  lemma FlatSize(ls: seq<Label>)
    requires ShortLabels(ls) && ls != []
    ensures |Flat(ls)| == 1 + |ls[0]| + |Flat(ls[1..])|
  {
  }

  lemma FlatStep(ls: seq<Label>)
    requires ShortLabels(ls) && ls != []
    ensures ShortLabels(ls[1..]) && |Flat(ls)| == 1 + |ls[0]| + |Flat(ls[1..])|
    ensures Flat(ls) + [0] == LabelWire(ls[0]) + (Flat(ls[1..]) + [0])
  {
  }

  lemma LabelAt(b: seq<byte>, p: nat, l: Label)
    requires 1 <= |l| <= MAX_LABEL_LEN
    ensures At(b, p, LabelWire(l)) <==> ItemAt(b, p) == Text(l, p + 1 + |l|)
  {
    AtConcat(b, p, [|l|], l);
    if p < |b| {
      assert b[p..p + 1] == [b[p]];
    }
  }

  lemma {:induction false} WireAtFlat(b: seq<byte>, p: nat, ls: seq<Label>)
    requires ValidLabels(ls)
    ensures WireAt(b, p, ls) <==> At(b, p, Flat(ls) + [0])
    decreases |ls|
  {
    hide At, ItemAt;
    if ls == [] {
      ZeroAt(b, p);
      assert Flat(ls) + [0] == [0];
    } else {
      var w := Flat(ls[1..]) + [0];
      FlatStep(ls);
      AtConcat(b, p, LabelWire(ls[0]), w);
      LabelAt(b, p, ls[0]);
      WireAtFlat(b, p + 1 + |ls[0]|, ls[1..]);
    }
  }

  lemma ZeroAt(b: seq<byte>, p: nat)
    ensures At(b, p, [0]) <==> ItemAt(b, p).Zero?
  {
    if p < |b| {
      assert b[p..p + 1] == [b[p]];
    }
  }

  /** The text after reading the labels `ls` one by one, starting from `acc`. */
  function GlueAll(acc: seq<byte>, ls: seq<Label>): seq<byte>
    decreases |ls|
  {
    if ls == [] then acc else GlueAll(Glue(acc, ls[0]), ls[1..])
  }

  lemma {:induction false} GlueAllIsExtend(acc: seq<byte>, ls: seq<Label>)
    requires ValidLabels(ls)
    ensures GlueAll(acc, ls) == Extend(acc, ls)
    decreases |ls|
  {
    if ls != [] {
      GlueAllIsExtend(Glue(acc, ls[0]), ls[1..]);
      ExtendStep(acc, ls);
    }
  }

  lemma {:induction false} GlueAllExtends(acc: seq<byte>, ls: seq<Label>)
    ensures acc <= GlueAll(acc, ls)
    decreases |ls|
  {
    if ls != [] {
      GlueAllExtends(Glue(acc, ls[0]), ls[1..]);
    }
  }

  /** Plain wire form scans to its labels. */
  lemma {:induction false} ScanWire(b: seq<byte>, p: nat, links: bool, acc: seq<byte>, ls: seq<Label>)
    requires ValidLabels(ls) && WireAt(b, p, ls)
    ensures Scan(b, p, links, acc) == End(GlueAll(acc, ls), p + |Flat(ls)| + 1)
    decreases |ls|
  {
    if ls != [] {
      ScanWire(b, p + 1 + |ls[0]|, links, Glue(acc, ls[0]), ls[1..]);
      FlatSize(ls);
    }
  }

  /** The reading loop only adds to the text. */
  lemma {:induction false} ScanExtends(b: seq<byte>, p: nat, links: bool, acc: seq<byte>)
    ensures var r := Scan(b, p, links, acc); r.Bad? || acc <= r.text
    decreases |b| - p
  {
    var i := ItemAt(b, p);
    if i.Text? {
      ScanExtends(b, i.next, links, Glue(acc, i.octets));
    }
  }

  /** Complete wire form is never found inside a run of labels: the zero octet would have to meet
      a length octet. This is why a pointer never leads back to the start of its own name. */
  lemma {:induction false} WireNotInsideLabels(xs: seq<Label>, ys: seq<Label>)
    requires ValidLabels(xs) && ValidLabels(ys)
    ensures !(Flat(xs) + [0] <= Flat(ys))
  {
    if Flat(xs) + [0] <= Flat(ys) {
      var w := Flat(xs) + [0];
      assert ys != [];
      assert w[0] == Flat(ys)[0] == |ys[0]|;
      assert xs != [];
      var n := |xs[0]|;
      assert w == [n] + xs[0] + (Flat(xs[1..]) + [0]);
      assert Flat(xs[1..]) + [0] == w[1 + n..];
      assert Flat(ys[1..]) == Flat(ys)[1 + n..];
      WireNotInsideLabels(xs[1..], ys[1..]);
    }
  }

  // ---------- the buffer a decoder sees against the prefix an encoder saw ----------

  /** `b` still holds the encode-time prefix `P`, except for a field of two octets at `k` that was
      zero then and may have been patched since. A negative `k` means nothing was patched. */
  ghost predicate Stage(b: seq<byte>, P: seq<byte>, k: int) {
    && |P| <= |b|
    && (forall i | 0 <= i < |P| && i != k && i != k + 1 :: b[i] == P[i])
    && (0 <= k < |P| ==> P[k] == 0)
    && (0 <= k + 1 < |P| ==> P[k + 1] == 0)
  }

  lemma StageGrows(b: seq<byte>, P: seq<byte>, k: int, w: seq<byte>)
    requires Stage(b, P, k) && k + 2 <= |P| && At(b, |P|, w)
    ensures Stage(b, P + w, k)
  {
    forall i | |P| <= i < |P| + |w| ensures b[i] == (P + w)[i] {
      assert b[i] == b[|P|..|P| + |w|][i - |P|];
    }
  }

  /** Whatever reading ends in, the name cannot be `text`. */
  predicate CannotYield(r: Segment, text: seq<byte>) {
    match r
    case Bad(_) => true
    case End(t, _) => t != text
    case Link(t, _, _) => t != [] && !(t + [DOT] <= text)
  }

  /** A patch cannot touch a length octet of a wire form, since it only overwrites zeros. So a
      changed wire form no longer decodes to its name: the text differs in a character, runs on
      past the zero octet, or fails. */
  lemma {:induction false} ChangedRegion(
    b: seq<byte>, P: seq<byte>, k: int, t: nat, ls: seq<Label>, acc: seq<byte>)
    requires ValidLabels(ls) && (ls != [] || acc != [])
    requires Stage(b, P, k) && WireAt(P, t, ls) && !WireAt(b, t, ls)
    ensures CannotYield(Scan(b, t, true, acc), GlueAll(acc, ls))
    decreases |ls|
  {
    var i := ItemAt(b, t);
    if ls == [] {
      if i.Text? {
        ScanExtends(b, i.next, true, Glue(acc, i.octets));
      }
    } else {
      StageLabel(b, P, k, t, ls[0]);
      if i.octets == ls[0] {
        ChangedRegion(b, P, k, i.next, ls[1..], Glue(acc, ls[0]));
      } else {
        ChangedOctets(b, i.next, i.octets, ls, acc);
      }
    }
  }

  lemma StageLabel(b: seq<byte>, P: seq<byte>, k: int, t: nat, l: Label)
    requires Stage(b, P, k) && l != [] && ItemAt(P, t) == Text(l, t + 1 + |l|)
    ensures var i := ItemAt(b, t); i.Text? && |i.octets| == |l| && i.next == t + 1 + |l|
  {
  }

  lemma ChangedOctets(b: seq<byte>, next: nat, l': Label, ls: seq<Label>, acc: seq<byte>)
    requires next <= |b| && ls != [] && |l'| == |ls[0]| && l' != ls[0] && l' != []
    ensures CannotYield(Scan(b, next, true, Glue(acc, l')), GlueAll(acc, ls))
  {
    var r, text := Scan(b, next, true, Glue(acc, l')), GlueAll(acc, ls);
    ScanExtends(b, next, true, Glue(acc, l'));
    GlueAllExtends(Glue(acc, ls[0]), ls[1..]);
    GlueCancels(acc, l', ls[0]);
    Diverged(Glue(acc, l'), Glue(acc, ls[0]), r, text);
  }

  lemma Diverged(x: seq<byte>, y: seq<byte>, r: Segment, text: seq<byte>)
    requires |x| == |y| && x != y && x != [] && y <= text && (r.Bad? || x <= r.text)
    ensures CannotYield(r, text)
  {
    if !r.Bad? {
      assert text[..|x|] == y && r.text[..|x|] == x && (r.text + [DOT])[..|x|] == x;
    }
  }

  lemma GlueCancels(acc: seq<byte>, x: seq<byte>, y: seq<byte>)
    requires x != y
    ensures Glue(acc, x) != Glue(acc, y)
  {
    if acc != [] {
      assert Glue(acc, x)[|acc| + 1..] == x && Glue(acc, y)[|acc| + 1..] == y;
    }
  }

  // ---------- where the compressing loop stops ----------

  /** How many labels are written out before a pointer replaces the rest; all of them if none does. */
  function Cut(P: seq<byte>, ls: seq<Label>): (n: nat)
    requires ShortLabels(ls)
    ensures n <= |ls|
    decreases |ls|
  {
    if ls == [] || FirstMatch(P, Flat(ls) + [0]).Some? then 0
    else 1 + Cut(P + LabelWire(ls[0]), ls[1..])
  }

  predicate EmitsPointer(P: seq<byte>, ls: seq<Label>)
    requires ShortLabels(ls)
  {
    Cut(P, ls) < |ls|
  }

  /** The offset at which the suffix of `ls` from label `j` on is found once the labels before it
      have been written after `P`. */
  function SuffixMatch(P: seq<byte>, ls: seq<Label>, j: nat): Option<nat>
    requires ShortLabels(ls) && j <= |ls|
  {
    FirstMatch(P + Flat(ls[..j]), Flat(ls[j..]) + [0])
  }

  /** The target of the pointer that the loop emits. */
  function Target(P: seq<byte>, ls: seq<Label>): nat
    requires ShortLabels(ls)
  {
    match SuffixMatch(P, ls, Cut(P, ls)) case Some(t) => t case None => 0
  }

  /** The labels that are written out. */
  function WrittenLabels(P: seq<byte>, ls: seq<Label>): (xs: seq<Label>)
    requires ShortLabels(ls)
    ensures ShortLabels(xs) && (ValidLabels(ls) ==> ValidLabels(xs))
  {
    ls[..Cut(P, ls)]
  }

  /** What follows the labels that are written out. */
  function Closing(P: seq<byte>, ls: seq<Label>): seq<byte>
    requires ShortLabels(ls)
  {
    if EmitsPointer(P, ls) then U16(0xC000 + Target(P, ls)) else [0]
  }

  /** The pointer stands for the longest suffix whose wire form ends strictly before the cursor, at
      its lowest offset, and everything before it is written out. */
  lemma {:induction false} GreedyCompression(P: seq<byte>, ls: seq<Label>)
    requires ShortLabels(ls)
    ensures var n := Cut(P, ls);
      && (forall j | 0 <= j < n :: SuffixMatch(P, ls, j).None?)
      && (n < |ls| ==> SuffixMatch(P, ls, n) == Some(Target(P, ls)))
      && AppendLabels(P, ls, [0]) == P + Flat(WrittenLabels(P, ls)) + Closing(P, ls)
    decreases |ls|
  {
    hide Flat, FirstMatch, SuffixMatch, Closing;
    var n := Cut(P, ls);
    SuffixAtStart(P, ls);
    if n == 0 {
      PointerAtOnce(P, ls);
    } else {
      GreedyCompression(P + LabelWire(ls[0]), ls[1..]);
      forall j | 1 <= j <= n
        ensures SuffixMatch(P, ls, j) == SuffixMatch(P + LabelWire(ls[0]), ls[1..], j - 1)
      {
        SuffixStep(P, ls, j);
      }
      SuffixStep(P, ls, n);
      LabelFirst(P, ls);
    }
  }

  lemma SuffixStep(P: seq<byte>, ls: seq<Label>, j: nat)
    requires ShortLabels(ls) && 1 <= j <= |ls|
    ensures SuffixMatch(P, ls, j) == SuffixMatch(P + LabelWire(ls[0]), ls[1..], j - 1)
    ensures P + Flat(ls[..j]) == P + LabelWire(ls[0]) + Flat(ls[1..][..j - 1])
  {
    PrefixStep(P, ls, j);
  }

  lemma PointerAtOnce(P: seq<byte>, ls: seq<Label>)
    requires ShortLabels(ls) && Cut(P, ls) == 0
    ensures AppendLabels(P, ls, [0]) == P + Closing(P, ls) && P + Flat(ls[..0]) == P
    ensures ls != [] ==> SuffixMatch(P, ls, 0) == Some(Target(P, ls))
  {
    SuffixAtStart(P, ls);
  }

  lemma LabelFirst(P: seq<byte>, ls: seq<Label>)
    requires ShortLabels(ls) && Cut(P, ls) > 0
    ensures Closing(P, ls) == Closing(P + LabelWire(ls[0]), ls[1..])
    ensures Target(P, ls) == Target(P + LabelWire(ls[0]), ls[1..])
    ensures AppendLabels(P, ls, [0]) == AppendLabels(P + LabelWire(ls[0]), ls[1..], [0])
  {
    hide Flat, FirstMatch, SuffixMatch;
    SuffixAtStart(P, ls);
    SuffixStep(P, ls, Cut(P, ls));
  }

  lemma SuffixAtStart(P: seq<byte>, ls: seq<Label>)
    requires ShortLabels(ls)
    ensures SuffixMatch(P, ls, 0) == FirstMatch(P, Flat(ls) + [0]) && P + Flat(ls[..0]) == P
  {
    assert ls[..0] == [] && ls[0..] == ls && P + [] == P;
  }

  lemma PrefixStep(P: seq<byte>, ls: seq<Label>, j: nat)
    requires ShortLabels(ls) && 1 <= j <= |ls|
    ensures P + Flat(ls[..j]) == P + LabelWire(ls[0]) + Flat(ls[1..][..j - 1])
    ensures ls[j..] == ls[1..][j - 1..]
  {
    assert ls[..j][1..] == ls[1..][..j - 1];
    assert Flat(ls[..j]) == LabelWire(ls[0]) + Flat(ls[1..][..j - 1]);
  }

  /** Compression never makes a name longer. */
  lemma CompressionShortens(P: seq<byte>, ls: seq<Label>)
    requires ValidLabels(ls)
    ensures |AppendLabels(P, ls, [0])| <= |P| + |Flat(ls)| + 1
  {
    hide AppendLabels, Flat;
    GreedyCompression(P, ls);
    var n := Cut(P, ls);
    assert ls == ls[..n] + ls[n..];
    FlatConcat(ls[..n], ls[n..]);
    assert |Flat(ls)| == |Flat(ls[..n])| + |Flat(ls[n..])|;
    if n < |ls| {
      FlatStep(ls[n..]);
    }
  }

  // ---------- compressed names ----------

  /** The pointer that the loop emits, if any, has a 14-bit target. */
  predicate PointerFits(P: seq<byte>, ls: seq<Label>)
    requires ShortLabels(ls)
  {
    EmitsPointer(P, ls) ==> Target(P, ls) < 0x4000
  }

  /** The pointer that the loop emits, if any, still leads to the octets it was matched with, and
      is not the last thing in the buffer. */
  predicate LabelsIntact(b: seq<byte>, P: seq<byte>, ls: seq<Label>)
    requires ShortLabels(ls)
  {
    EmitsPointer(P, ls) ==>
      At(b, Target(P, ls), Flat(ls[Cut(P, ls)..]) + [0]) && |AppendLabels(P, ls, [0])| < |b|
  }

  /** One round of the reading loop over a pointer. */
  lemma ScanPointer(b: seq<byte>, p: nat, acc: seq<byte>, t: nat)
    requires At(b, p, U16(0xC000 + t)) && t < 0x4000 && t < |b|
    ensures Scan(b, p, true, acc) == Link(acc, t, p + 2)
  {
    assert b[p..p + 2][0] == b[p];
    assert b[p] == b[p..p + 2][0] == 0xC0 + t / 0x100;
    assert b[p + 1] == b[p..p + 2][1] == t % 0x100;
  }

  /** Following a pointer to a region that held the wire form of `ls` at encoding time. */
  lemma FollowPointer(b: seq<byte>, P: seq<byte>, k: int, s: nat, t: nat, ls: seq<Label>)
    requires ValidLabels(ls) && ls != [] && |GlueAll([], ls)| <= MAX_DOMAIN_LEN
    requires Stage(b, P, k) && WireAt(P, t, ls) && t != s
    ensures var r := DecodeName(b, t, [s], true);
      if WireAt(b, t, ls) then r == Parsed(GlueAll([], ls), t + |Flat(ls)| + 1)
      else r.Failed? || r.value != GlueAll([], ls)
  {
    if WireAt(b, t, ls) {
      ScanWire(b, t, true, [], ls);
    } else {
      ChangedRegion(b, P, k, t, ls, []);
    }
  }

  lemma GlueAllSplits(acc: seq<byte>, ls: seq<Label>)
    requires ValidLabels(ls) && ls != []
    ensures GlueAll(acc, ls) == Glue(acc, GlueAll([], ls))
  {
    GlueAllIsExtend(acc, ls);
    GlueAllIsExtend([], ls);
  }

  lemma NotOwnStart(P: seq<byte>, s: nat, t: nat, done: seq<Label>, ls: seq<Label>)
    requires ValidLabels(done) && ValidLabels(ls) && s <= |P| && P[s..] == Flat(done)
    requires At(P, t, Flat(ls) + [0])
    ensures t != s
  {
    if t == s {
      var w := Flat(ls) + [0];
      assert Flat(done)[..|w|] == P[s..s + |w|] == w;
      WireNotInsideLabels(ls, done);
    }
  }

  /** The labels `ls` stand in `b` at `p`, without a zero octet. */
  predicate LabelsAt(b: seq<byte>, p: nat, ls: seq<Label>)
    decreases |ls|
  {
    if ls == [] then p <= |b|
    else ItemAt(b, p) == Text(ls[0], p + 1 + |ls[0]|) && LabelsAt(b, p + 1 + |ls[0]|, ls[1..])
  }

  lemma {:induction false} LabelsAtFlat(b: seq<byte>, p: nat, ls: seq<Label>)
    requires ValidLabels(ls)
    ensures LabelsAt(b, p, ls) <==> At(b, p, Flat(ls))
    decreases |ls|
  {
    if ls != [] {
      AtConcat(b, p, LabelWire(ls[0]), Flat(ls[1..]));
      LabelAt(b, p, ls[0]);
      LabelsAtFlat(b, p + 1 + |ls[0]|, ls[1..]);
    }
  }

  /** Written labels scan to their text, whatever the loop then makes of what follows them. */
  lemma {:induction false} ScanPrefix(
    b: seq<byte>, p: nat, links: bool, acc: seq<byte>, ls: seq<Label>, q: nat, r: Segment)
    requires ValidLabels(ls) && LabelsAt(b, p, ls) && q == p + |Flat(ls)| <= |b|
    requires Scan(b, q, links, GlueAll(acc, ls)) == r
    ensures Scan(b, p, links, acc) == r
    decreases |ls|
  {
    hide Flat, Glue, ItemAt;
    if ls == [] {
      NoOctets(ls);
    } else {
      FlatSize(ls);
      ScanPrefix(b, p + 1 + |ls[0]|, links, Glue(acc, ls[0]), ls[1..], q, r);
    }
  }

  lemma NoOctets(ls: seq<Label>)
    requires ls == []
    ensures Flat(ls) == []
  {
  }

  lemma {:induction false} GlueAllConcat(acc: seq<byte>, xs: seq<Label>, ys: seq<Label>)
    ensures GlueAll(acc, xs + ys) == GlueAll(GlueAll(acc, xs), ys)
    decreases |xs|
  {
    if xs == [] {
      assert xs + ys == ys;
    } else {
      assert (xs + ys)[1..] == xs[1..] + ys;
      GlueAllConcat(Glue(acc, xs[0]), xs[1..], ys);
    }
  }

  /** The segment that the compressing loop writes behind `P`. */
  function WrittenSegment(P: seq<byte>, ls: seq<Label>): Segment
    requires ShortLabels(ls)
  {
    var xs := WrittenLabels(P, ls);
    var acc, q := GlueAll([], xs), |P| + |Flat(xs)|;
    if EmitsPointer(P, ls) then Link(acc, Target(P, ls), q + 2) else End(acc, q + 1)
  }

  lemma ScanWritten(b: seq<byte>, P: seq<byte>, ls: seq<Label>)
    requires ValidLabels(ls) && PointerFits(P, ls)
    requires At(b, |P|, AppendLabels(P, ls, [0])[|P|..])
    ensures Scan(b, |P|, true, []) == WrittenSegment(P, ls)
  {
    WrittenOctets(b, P, ls);
    ScanOctets(b, P, ls);
  }

  lemma ScanOctets(b: seq<byte>, P: seq<byte>, ls: seq<Label>)
    requires ValidLabels(ls) && PointerFits(P, ls)
    requires At(b, |P|, Flat(WrittenLabels(P, ls))) && At(b, |P| + |Flat(WrittenLabels(P, ls))|, Closing(P, ls))
    ensures Scan(b, |P|, true, []) == WrittenSegment(P, ls)
  {
    hide WrittenSegment, Scan, Closing, Flat, LabelsAt, GlueAll, PointerFits, AppendLabels;
    var xs := WrittenLabels(P, ls);
    ScanClosing(b, |P| + |Flat(xs)|, GlueAll([], xs), P, ls);
    LabelsAtFlat(b, |P|, xs);
    ScanPrefix(b, |P|, true, [], xs, |P| + |Flat(xs)|, WrittenSegment(P, ls));
  }

  lemma ScanClosing(b: seq<byte>, q: nat, acc: seq<byte>, P: seq<byte>, ls: seq<Label>)
    requires ShortLabels(ls) && PointerFits(P, ls) && At(b, q, Closing(P, ls))
    requires q == |P| + |Flat(WrittenLabels(P, ls))| && acc == GlueAll([], WrittenLabels(P, ls))
    ensures Scan(b, q, true, acc) == WrittenSegment(P, ls)
  {
    if EmitsPointer(P, ls) {
      GreedyCompression(P, ls);
      ScanPointer(b, q, acc, Target(P, ls));
    } else {
      ScanZero(b, q, acc);
    }
  }

  /** The octets that the compressing loop wrote: labels, then a pointer or the zero octet. */
  lemma WrittenOctets(b: seq<byte>, P: seq<byte>, ls: seq<Label>)
    requires ShortLabels(ls) && At(b, |P|, AppendLabels(P, ls, [0])[|P|..])
    ensures At(b, |P|, Flat(WrittenLabels(P, ls)))
    ensures At(b, |P| + |Flat(WrittenLabels(P, ls))|, Closing(P, ls))
  {
    hide Flat, AppendLabels, Closing, WrittenLabels, At;
    GreedyCompression(P, ls);
    AtAppended(b, P, Flat(WrittenLabels(P, ls)), Closing(P, ls));
  }

  lemma AtAppended(b: seq<byte>, P: seq<byte>, x: seq<byte>, y: seq<byte>)
    requires At(b, |P|, (P + x + y)[|P|..])
    ensures At(b, |P|, x) && At(b, |P| + |x|, y)
  {
    assert (P + x + y)[|P|..] == x + y;
    AtConcat(b, |P|, x, y);
  }

  lemma ScanZero(b: seq<byte>, q: nat, acc: seq<byte>)
    requires At(b, q, [0])
    ensures Scan(b, q, true, acc) == End(acc, q + 1)
  {
    ZeroAt(b, q);
  }

  /** Reading a name that the compressing loop wrote behind `P`. */
  lemma DecodeCompressed(b: seq<byte>, P: seq<byte>, k: int, ls: seq<Label>)
    requires ValidLabels(ls) && k + 2 <= |P| && Stage(b, P, k)
    requires At(b, |P|, AppendLabels(P, ls, [0])[|P|..]) && PointerFits(P, ls)
    requires |GlueAll([], ls)| <= MAX_DOMAIN_LEN
    ensures
      var r := DecodeName(b, |P|, [], true);
      if LabelsIntact(b, P, ls) then r == Parsed(GlueAll([], ls), |AppendLabels(P, ls, [0])|)
      else r.Failed? || r.value != GlueAll([], ls)
  {
    var n := Cut(P, ls);
    GreedyCompression(P, ls);
    ScanWritten(b, P, ls);
    if n < |ls| {
      WrittenPart(b, P, k, ls);
      Halves(P, ls, n);
      DecodePointer(b, P, k, ls[..n], ls[n..], Target(P, ls));
    } else {
      assert ls[..n] == ls && !EmitsPointer(P, ls);
      assert |AppendLabels(P, ls, [0])| == |P| + |Flat(ls)| + 1;
    }
  }

  lemma Halves(P: seq<byte>, ls: seq<Label>, n: nat)
    requires ValidLabels(ls) && n < |ls|
    ensures ValidLabels(ls[..n]) && ValidLabels(ls[n..]) && ls[n..] != []
    ensures GlueAll(GlueAll([], ls[..n]), ls[n..]) == GlueAll([], ls)
  {
    assert ls == ls[..n] + ls[n..];
    GlueAllConcat([], ls[..n], ls[n..]);
  }

  /** The labels before the pointer extend the stage. */
  lemma WrittenPart(b: seq<byte>, P: seq<byte>, k: int, ls: seq<Label>)
    requires ShortLabels(ls) && k + 2 <= |P| && Stage(b, P, k)
    requires At(b, |P|, AppendLabels(P, ls, [0])[|P|..])
    ensures Stage(b, P + Flat(ls[..Cut(P, ls)]), k)
  {
    WrittenOctets(b, P, ls);
    StageGrows(b, P, k, Flat(ls[..Cut(P, ls)]));
  }

  lemma DecodePointer(b: seq<byte>, P: seq<byte>, k: int, xs: seq<Label>, ys: seq<Label>, t: nat)
    requires ValidLabels(xs) && ValidLabels(ys) && ys != []
    requires Stage(b, P + Flat(xs), k)
    requires At(P + Flat(xs), t, Flat(ys) + [0]) && t + |Flat(ys)| + 1 <= |P + Flat(xs)|
    requires Scan(b, |P|, true, []) == Link(GlueAll([], xs), t, |P| + |Flat(xs)| + 2)
    requires |GlueAll(GlueAll([], xs), ys)| <= MAX_DOMAIN_LEN
    ensures
      var r := DecodeName(b, |P|, [], true);
      var next := |P| + |Flat(xs)| + 2;
      if At(b, t, Flat(ys) + [0]) && next < |b| then r == Parsed(GlueAll(GlueAll([], xs), ys), next)
      else r.Failed? || r.value != GlueAll(GlueAll([], xs), ys)
  {
    var acc, P', s := GlueAll([], xs), P + Flat(xs), |P|;
    assert P'[s..] == Flat(xs);
    NotOwnStart(P', s, t, xs, ys);
    WireAtFlat(P', t, ys);
    WireAtFlat(b, t, ys);
    GlueAllSplits(acc, ys);
    FollowPointer(b, P', k, s, t, ys);
    ReturnFromLink(b, s, acc, t, s + |Flat(xs)| + 2, GlueAll([], ys));
  }

  /** Coming back from a link: the cursor is restored and the texts are glued. */
  lemma ReturnFromLink(b: seq<byte>, s: nat, acc: seq<byte>, t: nat, next: nat, tail: seq<byte>)
    requires s <= |b| && Scan(b, s, true, []) == Link(acc, t, next)
    requires |Glue(acc, tail)| <= MAX_DOMAIN_LEN
    ensures
      var inner, r := DecodeName(b, t, [s], true), DecodeName(b, s, [], true);
      if inner.Parsed? && inner.value == tail && next < |b| then r == Parsed(Glue(acc, tail), next)
      else r.Failed? || r.value != Glue(acc, tail)
  {
    assert [] + [s] == [s];
    var inner := DecodeName(b, t, [s], true);
    if inner.Parsed? && inner.value != tail {
      GlueCancels(acc, inner.value, tail);
    }
  }

  // ---------- names ----------

  /** The pointer in a name written behind `P`, if any, still works in `b`. */
  predicate NameIntact(b: seq<byte>, P: seq<byte>, text: seq<byte>, compress: bool) {
    var ls := ScannedLabels(text);
    compress && text != [] && ShortLabels(ls) ==> LabelsIntact(b, P, ls)
  }

  predicate NameEndsInPointer(P: seq<byte>, text: seq<byte>) {
    var ls := ScannedLabels(text);
    text != [] && ShortLabels(ls) && EmitsPointer(P, ls)
  }

  predicate NamePointerFits(P: seq<byte>, text: seq<byte>) {
    var ls := ScannedLabels(text);
    text != [] && ShortLabels(ls) ==> PointerFits(P, ls)
  }

  /** Reading a name where it was put gives that name and the cursor behind it, over any earlier
      octets and with compression on or off, exactly when its pointer survived. */
  lemma NameComesBack(b: seq<byte>, P: seq<byte>, k: int, text: seq<byte>, compress: bool, links: bool)
    requires NameOk(text) && (compress ==> links && NamePointerFits(P, text))
    requires k + 2 <= |P| && Stage(b, P, k)
    requires At(b, |P|, AppendName(P, text, compress).value[|P|..])
    ensures
      var r, Q := DecodeName(b, |P|, [], links), AppendName(P, text, compress).value;
      if NameIntact(b, P, text, compress) then r == Parsed(text, |Q|)
      else r.Failed? || r.value != text
  {
    var Q := AppendName(P, text, compress).value;
    if text == [] {
      assert Q[|P|..] == [0];
      ZeroAt(b, |P|);
    } else {
      ScannedText(text);
      var ls := ScannedLabels(text);
      GlueAllIsExtend([], ls);
      if compress {
        DecodeCompressed(b, P, k, ls);
      } else {
        assert Q[|P|..] == Flat(ls) + [0];
        WireAtFlat(b, |P|, ls);
        ScanWire(b, |P|, links, [], ls);
      }
    }
  }

  /** As long as the buffer stays within 14 bits, so do all pointers into it. */
  lemma ShortBufferFits(P: seq<byte>, text: seq<byte>)
    requires NameOk(text) && |AppendName(P, text, true).value| <= 0x4000
    ensures NamePointerFits(P, text)
  {
    if text != [] {
      ScannedText(text);
      GreedyCompression(P, ScannedLabels(text));
    }
  }

  // ---------- sequences of names ----------

  predicate NamesOk(names: seq<seq<byte>>) {
    forall i | 0 <= i < |names| :: NameOk(names[i])
  }

  /** The buffer after putting `names` one after another with compression. */
  function AppendNames(P: seq<byte>, names: seq<seq<byte>>): (Q: seq<byte>)
    requires NamesOk(names)
    ensures P <= Q
    decreases |names|
  {
    if names == [] then P else AppendNames(AppendName(P, names[0], true).value, names[1..])
  }

  function DecodeNames(b: seq<byte>, pos: nat, n: nat): Parsed<seq<seq<byte>>>
    requires pos <= |b|
    decreases n
  {
    if n == 0 then Parsed([], pos)
    else
      var (name, p) :- DecodeName(b, pos, [], true);
      var (rest, q) :- DecodeNames(b, p, n - 1);
      Parsed([name] + rest, q)
  }

  /** The buffer does not end exactly behind a closing pointer. Only the last name can fail this. */
  predicate RoomBehindPointers(b: seq<byte>, P: seq<byte>, names: seq<seq<byte>>)
    requires NamesOk(names)
    decreases |names|
  {
    names != [] ==>
      var Q := AppendName(P, names[0], true).value;
      (NameEndsInPointer(P, names[0]) ==> |Q| < |b|) && RoomBehindPointers(b, Q, names[1..])
  }

  /** Any list of names put one after another over any earlier octets is read back, unless the
      buffer ends exactly behind a closing pointer. */
  lemma {:induction false} NamesComeBack(b: seq<byte>, P: seq<byte>, names: seq<seq<byte>>)
    requires NamesOk(names) && |AppendNames(P, names)| <= 0x4000 && AppendNames(P, names) <= b
    ensures DecodeNames(b, |P|, |names|) == Parsed(names, |AppendNames(P, names)|)
       <==> RoomBehindPointers(b, P, names)
    decreases |names|
  {
    hide DecodeName, NameIntact, AppendName, NameOk;
    if names != [] {
      var Q := AppendName(P, names[0], true).value;
      NamesComeBack(b, Q, names[1..]);
      NamesStep(b, |P|, names, |AppendNames(P, names)|);
      NameReadBack(b, P, names[0]);
    }
  }

  lemma NamesStep(b: seq<byte>, pos: nat, names: seq<seq<byte>>, end: nat)
    requires pos <= |b| && names != []
    ensures var r := DecodeName(b, pos, [], true);
      DecodeNames(b, pos, |names|) == Parsed(names, end)
      <==> r.Parsed? && r.value == names[0] && DecodeNames(b, r.next, |names| - 1) == Parsed(names[1..], end)
  {
    var r := DecodeName(b, pos, [], true);
    if r.Parsed? {
      var s := DecodeNames(b, r.next, |names| - 1);
      if s.Parsed? {
        ConsEqual(r.value, s.value, names);
      }
    }
  }

  lemma ConsEqual<T>(x: T, xs: seq<T>, ys: seq<T>)
    requires ys != []
    ensures [x] + xs == ys <==> x == ys[0] && xs == ys[1..]
  {
    assert ([x] + xs)[1..] == xs;
    assert ys == [ys[0]] + ys[1..];
  }

  /** One name read where it was put, with nothing patched since. */
  lemma NameReadBack(b: seq<byte>, P: seq<byte>, text: seq<byte>)
    requires NameOk(text) && AppendName(P, text, true).value <= b
    requires |AppendName(P, text, true).value| <= 0x4000
    ensures
      var r, Q := DecodeName(b, |P|, [], true), AppendName(P, text, true).value;
      if NameEndsInPointer(P, text) ==> |Q| < |b| then r == Parsed(text, |Q|)
      else r.Failed? || r.value != text
  {
    var Q := AppendName(P, text, true).value;
    assert b[|P|..|Q|] == Q[|P|..];
    ShortBufferFits(P, text);
    NameComesBack(b, P, -2, text, true, true);
    OwnPointerIntact(b, P, text);
  }

  /** Without a patch a pointer can only fail by ending the buffer. */
  lemma OwnPointerIntact(b: seq<byte>, P: seq<byte>, text: seq<byte>)
    requires NameOk(text) && AppendName(P, text, true).value <= b
    ensures NameIntact(b, P, text, true)
       <==> (NameEndsInPointer(P, text) ==> |AppendName(P, text, true).value| < |b|)
  {
    hide AppendLabels, Flat, Cut, Target, ScannedLabels, Terminator;
    if text != [] {
      ScannedText(text);
      NoTerminatorMissing(text);
      var ls := ScannedLabels(text);
      if EmitsPointer(P, ls) {
        TargetStands(b, P, ls);
      }
    }
  }

  lemma NoTerminatorMissing(text: seq<byte>)
    requires !EndsWithDot(text)
    ensures Terminator(text) == [0]
  {
  }

  /** The target of a pointer still stands where it was found. */
  lemma TargetStands(b: seq<byte>, P: seq<byte>, ls: seq<Label>)
    requires ShortLabels(ls) && EmitsPointer(P, ls) && AppendLabels(P, ls, [0]) <= b
    ensures At(b, Target(P, ls), Flat(ls[Cut(P, ls)..]) + [0])
  {
    hide AppendLabels, Flat, Cut, Target, FirstMatch;
    GreedyCompression(P, ls);
    var n, t := Cut(P, ls), Target(P, ls);
    var P', w := P + Flat(ls[..n]), Flat(ls[n..]) + [0];
    FoundInside(P', w);
    assert P' <= AppendLabels(P, ls, [0]) <= b;
    assert b[t..t + |w|] == P'[t..t + |w|];
  }

  lemma FoundInside(P: seq<byte>, w: seq<byte>)
    ensures FirstMatch(P, w).Some? ==> At(P, FirstMatch(P, w).value, w)
  {
  }
}
