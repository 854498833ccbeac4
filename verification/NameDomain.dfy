/** The names that survive being written and read back are exactly those that `NameOk` describes. */
module NameDomain {
  import opened Octets
  import opened Names
  import opened NameText
  import opened NameRoundTrip

  /** The position of the first empty label. */
  function FirstEmpty(ls: seq<Label>): (i: nat)
    ensures i <= |ls| && ValidLengths(ls[..i]) && (i < |ls| ==> ls[i] == [])
    ensures i == |ls| ==> ls[..i] == ls
    decreases |ls|
  {
    if ls == [] || ls[0] == [] then 0
    else
      var i := FirstEmpty(ls[1..]);
      assert ls[..i + 1] == [ls[0]] + ls[1..][..i];
      i + 1
  }

  predicate ValidLengths(ls: seq<Label>) {
    forall i | 0 <= i < |ls| :: ls[i] != []
  }

  lemma {:induction false} GlueAllShort(acc: seq<byte>, ls: seq<Label>)
    requires ShortLabels(ls)
    ensures |GlueAll(acc, ls)| <= |acc| + |Flat(ls)|
    decreases |ls|
  {
    if ls != [] {
      GlueAllShort(Glue(acc, ls[0]), ls[1..]);
      FlatSize(ls);
    }
  }

  /** Reading labels stops for good at the first empty one. */
  lemma StopsAtEmpty(b: seq<byte>, p: nat, links: bool, ls: seq<Label>, tail: seq<byte>, i: nat)
    requires ShortLabels(ls) && i < |ls| && ValidLabels(ls[..i]) && ls[i] == []
    requires At(b, p, Flat(ls) + tail)
    ensures Scan(b, p, links, []) == End(GlueAll([], ls[..i]), p + |Flat(ls[..i])| + 1)
    ensures |Flat(ls)| >= |Flat(ls[..i])| + 1
  {
    var xs, ys := ls[..i], ls[i..];
    FlatSuffix(ls, i, tail);
    assert ls == xs + ys;
    FlatConcat(xs, ys);
    assert Flat(ys) == [0] + Flat(ys[1..]) by {
      assert LabelWire([]) == [0];
    }
    assert Flat(ls) + tail == Flat(xs) + [0] + (Flat(ys[1..]) + tail);
    AtConcat(b, p, Flat(xs) + [0], Flat(ys[1..]) + tail);
    WireAtFlat(b, p, xs);
    ScanWire(b, p, links, [], xs);
  }

  /** Without a zero octet behind the labels, reading runs into the end of the buffer. */
  lemma RunsOut(b: seq<byte>, p: nat, ls: seq<Label>)
    requires ValidLabels(ls) && At(b, p, Flat(ls)) && p + |Flat(ls)| == |b|
    ensures Scan(b, p, false, []) == Bad(BehindBuffer)
  {
    LabelsAtFlat(b, p, ls);
    ScanPrefix(b, p, false, [], ls, |b|, Bad(BehindBuffer));
  }

  lemma TailStands(P: seq<byte>, Q: seq<byte>)
    requires P <= Q
    ensures At(Q, |P|, Q[|P|..]) && Stage(Q, P, -2)
  {
  }

  lemma PlainLayout(P: seq<byte>, text: seq<byte>, Q: seq<byte>)
    requires AppendName(P, text, false) == Ok(Q) && text != []
    ensures ShortLabels(ScannedLabels(text))
    ensures var w := Flat(ScannedLabels(text)) + Terminator(text); |Q| == |P| + |w| && At(Q, |P|, w)
    ensures |text| <= 254 || EndsWithDot(text)
  {
    hide Split, Flat;
    assert Q[|P|..] == Flat(ScannedLabels(text)) + Terminator(text);
  }

  lemma ScannedLength(text: seq<byte>)
    requires ShortLabels(ScannedLabels(text))
    ensures |Flat(ScannedLabels(text))| == if EndsWithDot(text) then |text| else |text| + 1
  {
    hide Split, Flat;
    FlatLength(if EndsWithDot(text) then text[..|text| - 1] else text);
  }

  /** With an empty label the text read is too short, or the cursor stops before the end. */
  lemma EmptyLabelLost(P: seq<byte>, text: seq<byte>, Q: seq<byte>, i: nat)
    requires AppendName(P, text, false) == Ok(Q) && text != []
    requires var ls := ScannedLabels(text); i < |ls| && ValidLengths(ls[..i]) && ls[i] == []
    ensures DecodeName(Q, |P|, [], false) != Parsed(text, |Q|)
  {
    hide AppendName, ScannedLabels, Flat, Scan, GlueAll, DecodeName;
    PlainLayout(P, text, Q);
    ScannedLength(text);
    var ls := ScannedLabels(text);
    var read, n := EmptyLabelRead(Q, |P|, ls, Terminator(text), i);
    EndsEarly(Q, |P|, read, |P| + n + 1, text);
  }

  /** Labels before the first empty one are read, in fewer octets than all labels take. */
  lemma EmptyLabelRead(b: seq<byte>, p: nat, ls: seq<Label>, tail: seq<byte>, i: nat)
    returns (read: seq<byte>, n: nat)
    requires ShortLabels(ls) && i < |ls| && ValidLengths(ls[..i]) && ls[i] == []
    requires At(b, p, Flat(ls) + tail)
    ensures Scan(b, p, false, []) == End(read, p + n + 1) && |read| <= n < |Flat(ls)|
  {
    hide Flat, Scan, GlueAll, At;
    StopsAtEmpty(b, p, false, ls, tail, i);
    GlueAllShort([], ls[..i]);
    read, n := GlueAll([], ls[..i]), |Flat(ls[..i])|;
  }

  lemma EndsEarly(b: seq<byte>, p: nat, read: seq<byte>, next: nat, text: seq<byte>)
    requires p <= |b| && Scan(b, p, false, []) == End(read, next) && (|read| < |text| || next < |b|)
    ensures DecodeName(b, p, [], false) != Parsed(text, |b|)
  {
    hide Scan;
  }

  lemma NoTerminatorLost(P: seq<byte>, text: seq<byte>, Q: seq<byte>)
    requires AppendName(P, text, false) == Ok(Q) && EndsWithDot(text) && ValidLabels(ScannedLabels(text))
    ensures DecodeName(Q, |P|, [], false).Failed?
  {
    hide AppendName, ScannedLabels, Flat, Scan;
    PlainLayout(P, text, Q);
    assert Flat(ScannedLabels(text)) + Terminator(text) == Flat(ScannedLabels(text));
    RunsOut(Q, |P|, ScannedLabels(text));
  }

  lemma GoodNameRead(P: seq<byte>, text: seq<byte>, Q: seq<byte>)
    requires AppendName(P, text, false) == Ok(Q) && NameOk(text)
    ensures DecodeName(Q, |P|, [], false) == Parsed(text, |Q|)
  {
    hide AppendName, DecodeName, NameOk;
    TailStands(P, Q);
    NameComesBack(Q, P, -2, text, false, false);
  }

  /** For every text that can be written without compression: it is read back from the octets just
      written if and only if it is empty or consists of non-empty labels of at most 63 octets, has no
      dot at its end and at most 254 octets. */
  lemma PlainNameExact(P: seq<byte>, text: seq<byte>, Q: seq<byte>)
    requires AppendName(P, text, false) == Ok(Q)
    ensures DecodeName(Q, |P|, [], false) == Parsed(text, |Q|) <==> NameOk(text)
  {
    hide AppendName, DecodeName, Split;
    if NameOk(text) {
      GoodNameRead(P, text, Q);
    } else {
      PlainLayout(P, text, Q);
      var i := FirstEmpty(ScannedLabels(text));
      if i < |ScannedLabels(text)| {
        EmptyLabelLost(P, text, Q, i);
      } else {
        NoTerminatorLost(P, text, Q);
      }
    }
  }
}
