/** When a text that is written as a name with compression is read back as itself, for every text that
    can be written. */
module CompressedNames {
  import opened Octets
  import opened Names
  import opened NameText
  import opened NameRoundTrip
  import opened NameDomain
  import opened ClosingDots

  // ---------- texts with an empty label ----------

  /** What reading makes of a text with an empty label: what stands before that label, with a dot if a
      pointer stands for the empty label. */
  predicate ReadsAs(read: seq<byte>, before: seq<byte>) {
    read == before || (before != [] && read == before + [DOT])
  }

  /** Reading ends in a text, or in a link whose target completes it. */
  ghost predicate ScansAs(b: seq<byte>, s: nat, r: Segment, before: seq<byte>) {
    match r
    case Bad(_) => false
    case End(text, _) => text == before
    case Link(text, addr, _) =>
      addr <= |b| &&
      var inner := DecodeName(b, addr, [s], true);
      inner.Parsed? ==> ReadsAs(Glue(text, inner.value), before)
  }

  /** Whether the empty label is written out or is part of what a pointer stands for, reading stops
      there. */
  lemma {:induction false} EmptyLabelScanned(b: seq<byte>, s: nat, P: seq<byte>, acc: seq<byte>, ls: seq<Label>,
                                             tail: seq<byte>, i: nat)
    requires ShortLabels(ls) && i < |ls| && ValidLabels(ls[..i]) && ls[i] == []
    requires AppendLabels(P, ls, tail) <= b && |AppendLabels(P, ls, tail)| <= 0x4000
    ensures ScansAs(b, s, Scan(b, |P|, true, acc), GlueAll(acc, ls[..i]))
    decreases i
  {
    hide Flat, Scan, GlueAll, At, ScansAs;
    var found := FirstMatch(P, Flat(ls) + tail);
    if found.Some? {
      EmptyLabelFound(b, s, P, acc, ls, tail, i, found.value);
    } else if i == 0 {
      EmptyLabelWritten(b, s, P, acc, ls, tail);
    } else {
      var rest := ls[1..];
      assert rest[..i - 1] == ls[..i][1..];
      EmptyLabelScanned(b, s, P + LabelWire(ls[0]), Glue(acc, ls[0]), rest, tail, i - 1);
      LabelScanned(b, P, acc, ls[0]);
      GlueAllStep(acc, ls[..i]);
    }
  }

  lemma GlueAllStep(acc: seq<byte>, xs: seq<Label>)
    requires xs != []
    ensures GlueAll(acc, xs) == GlueAll(Glue(acc, xs[0]), xs[1..])
  {
  }

  lemma LabelScanned(b: seq<byte>, P: seq<byte>, acc: seq<byte>, l: Label)
    requires 1 <= |l| <= MAX_LABEL_LEN && P + LabelWire(l) <= b
    ensures Scan(b, |P|, true, acc) == Scan(b, |P + LabelWire(l)|, true, Glue(acc, l))
  {
    AppendedAt(b, P, LabelWire(l), []);
    LabelAt(b, |P|, l);
  }

  lemma EmptyLabelWritten(b: seq<byte>, s: nat, P: seq<byte>, acc: seq<byte>, ls: seq<Label>, tail: seq<byte>)
    requires ShortLabels(ls) && ls != [] && ls[0] == [] && FirstMatch(P, Flat(ls) + tail).None?
    requires AppendLabels(P, ls, tail) <= b
    ensures ScansAs(b, s, Scan(b, |P|, true, acc), GlueAll(acc, ls[..0]))
  {
    assert LabelWire([]) == [0];
    assert P + [0] <= AppendLabels(P + [0], ls[1..], tail);
    AppendedAt(b, P, [0], []);
    ScanZero(b, |P|, acc);
  }

  lemma EmptyLabelFound(b: seq<byte>, s: nat, P: seq<byte>, acc: seq<byte>, ls: seq<Label>, tail: seq<byte>, i: nat,
                        t: nat)
    requires ShortLabels(ls) && i < |ls| && ValidLabels(ls[..i]) && ls[i] == []
    requires At(P, t, Flat(ls) + tail) && t < |P| && P + U16(0xC000 + t) <= b && |P| <= 0x4000
    ensures ScansAs(b, s, Scan(b, |P|, true, acc), GlueAll(acc, ls[..i]))
  {
    hide Flat, Scan, GlueAll, At;
    AppendedAt(b, P, U16(0xC000 + t), []);
    ScanPointer(b, |P|, acc, t);
    StillFound(b, P, t, Flat(ls) + tail);
    StopsAtEmpty(b, t, true, ls, tail, i);
    if i > 0 {
      GlueAllSplits(acc, ls[..i]);
    } else {
      NothingGlued(acc);
    }
  }

  lemma NothingGlued(acc: seq<byte>)
    ensures GlueAll(acc, []) == acc && GlueAll([], []) == []
  {
  }

  /** What stands before an empty label, even with a dot, is shorter than the text. */
  lemma EmptyLabelIsShorter(text: seq<byte>, i: nat)
    requires text != [] && ShortLabels(ScannedLabels(text))
    requires var ls := ScannedLabels(text); i < |ls| && ValidLabels(ls[..i]) && ls[i] == []
    ensures forall read | ReadsAs(read, GlueAll([], ScannedLabels(text)[..i])) :: |read| < |text|
  {
    hide Split, Flat, GlueAll, ScannedLabels;
    var ls := ScannedLabels(text);
    ScannedLength(text);
    EmptyLabelTakesOctet(ls, i);
    LabelsBefore(ls[..i]);
    if !EndsWithDot(text) && i == |ls| - 1 {
      LastLabelIsNotEmpty(text);
    }
  }

  lemma LabelsBefore(xs: seq<Label>)
    requires ValidLabels(xs)
    ensures if xs == [] then GlueAll([], xs) == [] else |GlueAll([], xs)| < |Flat(xs)|
  {
    if xs != [] {
      GlueAllShort(Glue([], xs[0]), xs[1..]);
      FlatSize(xs);
    }
  }

  lemma EmptyLabelTakesOctet(ls: seq<Label>, i: nat)
    requires ShortLabels(ls) && i < |ls| && ls[i] == []
    ensures |Flat(ls)| == |Flat(ls[..i])| + 1 + |Flat(ls[i + 1..])|
    ensures i < |ls| - 1 ==> |Flat(ls[i + 1..])| > 0
  {
    hide Flat;
    assert ls == ls[..i] + ls[i..] && ls[i..][1..] == ls[i + 1..];
    FlatConcat(ls[..i], ls[i..]);
    FlatSize(ls[i..]);
    if i < |ls| - 1 {
      FlatSize(ls[i + 1..]);
    }
  }

  lemma LastLabelIsNotEmpty(text: seq<byte>)
    requires text != [] && !EndsWithDot(text)
    ensures var ls := ScannedLabels(text); ls[|ls| - 1] != []
  {
  }

  /** A text with an empty label is never read back as itself: reading stops before that label. */
  lemma EmptyLabelReads(b: seq<byte>, P: seq<byte>, text: seq<byte>, i: nat)
    requires text != [] && AppendName(P, text, true).Ok?
    requires AppendName(P, text, true).value <= b && |AppendName(P, text, true).value| <= 0x4000
    requires var ls := ScannedLabels(text); i < |ls| && ValidLabels(ls[..i]) && ls[i] == []
    ensures var r := DecodeName(b, |P|, [], true);
      r.Parsed? ==> ReadsAs(r.value, GlueAll([], ScannedLabels(text)[..i])) && |r.value| < |text|
  {
    hide ScannedLabels, GlueAll, AppendLabels;
    assert ShortLabels(ScannedLabels(text));
    EmptyLabelScanned(b, |P|, P, [], ScannedLabels(text), Terminator(text), i);
    assert [] + [|P|] == [|P|];
    EmptyLabelIsShorter(text, i);
  }

  // ---------- texts that close with a dot ----------

  /** The pointer does not end the buffer, does not lead to the start of its own name, and leads to
      labels with a pointer to the root name behind them. */
  predicate PointsToDot(b: seq<byte>, P: seq<byte>, ls: seq<Label>)
    requires ShortLabels(ls)
  {
    DotCut(P, ls) < |ls| && Found(P, ls, DotCut(P, ls)).Some? &&
    var t := Found(P, ls, DotCut(P, ls)).value;
    var q := t + |Flat(ls[DotCut(P, ls)..])|;
    && |AppendLabels(P, ls, [])| < |b| && t != |P| && q < |b| && b[q] >= 0xC0
    && LeadsToRoot(b, q, [|P|, t])
  }

  /** The pointer at `q` is complete, does not end the buffer, and leads to an empty name. */
  predicate LeadsToRoot(b: seq<byte>, q: nat, visited: seq<nat>)
    requires q < |b| && b[q] >= 0xC0
  {
    var link := ReadPointer(b, q, true, []);
    link.Link? && q + 2 < |b| &&
    var root := DecodeName(b, link.addr, visited, true);
    root.Parsed? && root.value == []
  }

  /** Following a pointer to labels gives their text with a dot exactly if a pointer to the root name
      stands behind them. */
  lemma DotFollowed(b: seq<byte>, s: nat, t: nat, ys: seq<Label>)
    requires ValidLabels(ys) && ys != [] && At(b, t, Flat(ys)) && t + |Flat(ys)| < |b| && t != s
    requires |GlueAll([], ys)| < MAX_DOMAIN_LEN
    ensures var r, q := DecodeName(b, t, [s], true), t + |Flat(ys)|;
      r.Parsed? && r.value == GlueAll([], ys) + [DOT] <==> b[q] >= 0xC0 && LeadsToRoot(b, q, [s, t])
  {
    hide Flat, GlueAll, LabelsAt, DecodeName, Scan, At, ReadPointer, LeadsToRoot;
    var q, text := t + |Flat(ys)|, GlueAll([], ys);
    LabelsAtFlat(b, t, ys);
    ScanPrefix(b, t, true, [], ys, q, Scan(b, q, true, text));
    SomeText(ys);
    DotScanned(b, q, text);
    DotDecoded(b, s, t, q, text);
  }

  /** A label, a zero octet or an error behind the labels does not give the dot. */
  lemma DotScanned(b: seq<byte>, q: nat, text: seq<byte>)
    requires q < |b| && text != []
    ensures var r := Scan(b, q, true, text);
      if b[q] >= 0xC0 then r == ReadPointer(b, q, true, text)
      else (r.End? ==> r.text != text + [DOT]) && (r.Link? ==> |r.text| > |text| + 1)
  {
    var i := ItemAt(b, q);
    if i.Text? {
      ScanExtends(b, i.next, true, Glue(text, i.octets));
    }
  }

  lemma DotDecoded(b: seq<byte>, s: nat, t: nat, q: nat, text: seq<byte>)
    requires t <= |b| && q < |b| && t != s && text != [] && |text| < MAX_DOMAIN_LEN
    requires Scan(b, t, true, []) == Scan(b, q, true, text)
    requires var r := Scan(b, q, true, text);
      if b[q] >= 0xC0 then r == ReadPointer(b, q, true, text)
      else (r.End? ==> r.text != text + [DOT]) && (r.Link? ==> |r.text| > |text| + 1)
    ensures var r := DecodeName(b, t, [s], true);
      r.Parsed? && r.value == text + [DOT] <==> b[q] >= 0xC0 && LeadsToRoot(b, q, [s, t])
  {
    hide Scan;
    assert [s] + [t] == [s, t];
    var r := Scan(b, q, true, text);
    if r.Link? {
      var linked := DecodeName(b, r.addr, [s, t], true);
      if linked.Parsed? {
        GlueLengths(r.text, linked.value);
        assert Glue(text, []) == text + [DOT];
      }
    }
  }

  lemma GlueLengths(x: seq<byte>, y: seq<byte>)
    ensures |Glue(x, y)| == if x == [] then |y| else |x| + 1 + |y|
  {
  }

  /** Coming back from the pointer with the dot. */
  lemma DotRead(b: seq<byte>, P: seq<byte>, ls: seq<Label>)
    requires ValidLabels(ls) && AppendLabels(P, ls, []) <= b && DotCut(P, ls) < |ls|
    requires |AppendLabels(P, ls, [])| <= 0x4000 && |GlueAll([], ls)| < MAX_DOMAIN_LEN
    ensures PointsToDot(b, P, ls) <==>
      DecodeName(b, |P|, [], true) == Parsed(GlueAll([], ls) + [DOT], |AppendLabels(P, ls, [])|)
  {
    hide AppendLabels, Flat, Scan, DecodeName, DotCut, GlueAll, At, LeadsToRoot;
    ClosingDotForm(P, ls);
    var n := DotCut(P, ls);
    var xs, ys, t := ls[..n], ls[n..], Found(P, ls, n).value;
    Halves(P, ls, n);
    var x, y := GlueAll([], xs), GlueAll([], ys);
    GlueAllSplits(x, ys);
    SomeText(ys);
    GlueDot(x, y);
    PointerScan(b, P, xs, ys, t);
    if t == |P| {
      OwnStartLoops(b, t);
    } else {
      DotFollowed(b, |P|, t, ys);
    }
    ReturnFromLink(b, |P|, x, t, |P| + |Flat(xs)| + 2, y + [DOT]);
  }

  lemma GlueDot(x: seq<byte>, y: seq<byte>)
    requires y != []
    ensures Glue(x, y + [DOT]) == Glue(x, y) + [DOT] && |y| <= |Glue(x, y)|
  {
  }

  /** A name that closes with a dot is read back with the dot if and only if a pointer is written that
      leads to labels with a pointer to the root name behind them. */
  lemma ClosingDotKept(b: seq<byte>, P: seq<byte>, text: seq<byte>)
    requires EndsWithDot(text) && NameOk(Plain(text)) && Plain(text) != []
    requires AppendName(P, text, true).Ok? && AppendName(P, text, true).value <= b
    requires |AppendName(P, text, true).value| <= 0x4000 && ShortLabels(Split(Plain(text)))
    ensures DecodeName(b, |P|, [], true) == Parsed(text, |AppendName(P, text, true).value|) <==>
      PointsToDot(b, P, Split(Plain(text)))
  {
    hide AppendLabels, AppendName, Split, DotCut, DecodeName, PointsToDot, NameOk, GlueAll;
    DotLayout(b, P, text);
    var ls := Split(Plain(text));
    assert text == Plain(text) + [DOT];
    PlainIsShort(text);
    if DotCut(P, ls) < |ls| {
      DotRead(b, P, ls);
    } else {
      NoPointerRead(b, P, ls);
      NoDot(b, P, ls);
    }
  }

  lemma PlainIsShort(text: seq<byte>)
    requires EndsWithDot(text) && NameOk(Plain(text))
    ensures |Plain(text)| < MAX_DOMAIN_LEN
  {
  }

  lemma NoDot(b: seq<byte>, P: seq<byte>, ls: seq<Label>)
    requires ShortLabels(ls) && DotCut(P, ls) == |ls|
    ensures !PointsToDot(b, P, ls)
  {
  }

  // ---------- every text ----------

  /** For every text that can be written with compression, over any earlier octets: it is read back as
      itself if and only if
      - it is the root or consists of non-empty labels without a dot at the end, and the buffer does not end
        with its pointer; or
      - it has a dot at the end and no empty label before it, and its pointer leads to labels with a pointer
        to the root name behind them. */
  lemma CompressedNameExact(b: seq<byte>, P: seq<byte>, text: seq<byte>, Q: seq<byte>)
    requires AppendName(P, text, true) == Ok(Q) && Q <= b && |Q| <= 0x4000
    ensures DecodeName(b, |P|, [], true) == Parsed(text, |Q|) <==>
      if NameOk(text) then NameEndsInPointer(P, text) ==> |Q| < |b|
      else EndsWithDot(text) && ValidLabels(ScannedLabels(text)) && PointsToDot(b, P, ScannedLabels(text))
  {
    hide AppendName, DecodeName, Split, PointsToDot, NameEndsInPointer, AppendLabels;
    if NameOk(text) {
      NameReadBack(b, P, text);
    } else {
      WrittenText(P, text);
      var i := FirstEmpty(ScannedLabels(text));
      if i < |ScannedLabels(text)| {
        EmptyLabelReads(b, P, text, i);
      } else {
        assert Plain(text) != [] by {
          SplitNothing();
        }
        ClosingDotKept(b, P, text);
      }
    }
  }

  lemma SplitNothing()
    ensures Split([]) == [[]]
  {
  }

  lemma WrittenText(P: seq<byte>, text: seq<byte>)
    requires AppendName(P, text, true).Ok? && !NameOk(text)
    ensures text != [] && ShortLabels(ScannedLabels(text)) && (|text| <= 254 || EndsWithDot(text))
    ensures |text| <= 255
  {
    hide Split;
  }

  /** Written behind a name whose labels "a" are followed by a pointer to the root name, "a." keeps its
      dot. */
  lemma DotIsKept(rest: seq<byte>)
    requires rest != []
    ensures var P: seq<byte> := [0, 1, A, 0xC0, 0];
      && AppendName(P, [A, DOT], true) == Ok(P + U16(0xC001))
      && DecodeName(P + U16(0xC001) + rest, |P|, [], true) == Parsed([A, DOT], |P| + 2)
  {
    hide DecodeName, Split;
    var P: seq<byte> := [0, 1, A, 0xC0, 0];
    LabelsOfA();
    FlatOfA();
    assert [A, DOT][..1] == [A];
    assert P[0..2][0] != [1, A][0];
    assert At(P, 1, [1, A]) && !At(P, 0, [1, A]);
    assert Flat([[A]]) + [] == [1, A];
    assert AppendName(P, [A, DOT], true) == Ok(AppendLabels(P, [[A]], []));
    KeepsDot(P + U16(0xC001) + rest);
  }

  lemma KeepsDot(b: seq<byte>)
    requires [0, 1, A, 0xC0, 0, 0xC0, 1] <= b && |b| > 7
    ensures DecodeName(b, 5, [], true) == Parsed([A, DOT], 7)
  {
    assert forall i | 0 <= i < 7 :: b[i] == [0, 1, A, 0xC0, 0, 0xC0, 1][i];
    assert Scan(b, 5, true, []) == Link([], 1, 7);
    assert b[2..3] == [A];
    assert ItemAt(b, 1) == Text([A], 3) && ItemAt(b, 3) == Pointer;
    assert Scan(b, 3, true, [A]) == Link([A], 0, 5);
    assert Scan(b, 1, true, []) == Link([A], 0, 5);
    assert [] + [5] == [5] && [5] + [1] == [5, 1];
    assert DecodeName(b, 0, [5, 1], true) == Parsed([], 1);
    assert Glue([A], []) == [A, DOT];
    assert DecodeName(b, 1, [5], true) == Parsed([A, DOT], 5);
  }
}
