/** Compressed names that close with a dot: nothing closes the octets that are looked for, so a pointer
    may lead into the middle of a longer name, or to the start of the name itself. */
module ClosingDots {
  import opened Octets
  import opened Names
  import opened NameText
  import opened NameRoundTrip

  /** Where the labels from `j` on stand, with anything behind them, once those before are written. */
  function Found(P: seq<byte>, ls: seq<Label>, j: nat): Option<nat>
    requires ShortLabels(ls) && j <= |ls|
  {
    FirstMatch(P + Flat(ls[..j]), Flat(ls[j..]))
  }

  /** How many labels are written before a pointer replaces the rest. */
  function DotCut(P: seq<byte>, ls: seq<Label>): (n: nat)
    requires ShortLabels(ls)
    ensures n <= |ls|
    decreases |ls|
  {
    if ls == [] || FirstMatch(P, Flat(ls)).Some? then 0 else 1 + DotCut(P + LabelWire(ls[0]), ls[1..])
  }

  /** The text without its dot. */
  function Plain(text: seq<byte>): seq<byte>
    requires EndsWithDot(text)
  {
    text[..|text| - 1]
  }

  /** What follows the labels that are written: a pointer, or a zero octet although there is a dot. */
  function DotClosing(P: seq<byte>, ls: seq<Label>): seq<byte>
    requires ShortLabels(ls)
  {
    match Found(P, ls, DotCut(P, ls))
    case Some(t) => if DotCut(P, ls) < |ls| then U16(0xC000 + t) else [0]
    case None => [0]
  }

  /** The pointer stands for the longest run of last labels that is found anywhere, and leads to its
      lowest offset; if there is none, the name is written as if it had no dot. */
  lemma {:induction false} ClosingDotForm(P: seq<byte>, ls: seq<Label>)
    requires ShortLabels(ls)
    ensures var n := DotCut(P, ls);
      && (forall j | 0 <= j < n :: Found(P, ls, j).None?) && (n < |ls| ==> Found(P, ls, n).Some?)
      && AppendLabels(P, ls, []) == P + Flat(ls[..n]) + DotClosing(P, ls)
    decreases |ls|
  {
    hide Flat, FirstMatch, Found, DotClosing;
    FoundAtStart(P, ls);
    var n := DotCut(P, ls);
    if n == 0 {
      ClosingAtStart(P, ls);
    } else {
      var P1, rest := P + LabelWire(ls[0]), ls[1..];
      ClosingDotForm(P1, rest);
      forall j | 1 <= j <= n ensures Found(P, ls, j) == Found(P1, rest, j - 1) {
        FoundStep(P, ls, j);
      }
      FoundStep(P, ls, n);
      ClosingStep(P, ls);
    }
  }

  lemma ClosingAtStart(P: seq<byte>, ls: seq<Label>)
    requires ShortLabels(ls) && DotCut(P, ls) == 0
    ensures AppendLabels(P, ls, []) == P + DotClosing(P, ls)
  {
    FoundAtStart(P, ls);
  }

  lemma ClosingStep(P: seq<byte>, ls: seq<Label>)
    requires ShortLabels(ls) && DotCut(P, ls) > 0
    ensures DotClosing(P, ls) == DotClosing(P + LabelWire(ls[0]), ls[1..])
    ensures AppendLabels(P, ls, []) == AppendLabels(P + LabelWire(ls[0]), ls[1..], [])
  {
    hide Flat, Found, FirstMatch;
    FoundAtStart(P, ls);
    FoundStep(P, ls, DotCut(P, ls));
  }

  lemma FoundStep(P: seq<byte>, ls: seq<Label>, j: nat)
    requires ShortLabels(ls) && 1 <= j <= |ls|
    ensures Found(P, ls, j) == Found(P + LabelWire(ls[0]), ls[1..], j - 1)
    ensures P + Flat(ls[..j]) == P + LabelWire(ls[0]) + Flat(ls[1..][..j - 1])
  {
    PrefixStep(P, ls, j);
  }

  lemma FoundAtStart(P: seq<byte>, ls: seq<Label>)
    requires ShortLabels(ls)
    ensures Found(P, ls, 0) == FirstMatch(P, Flat(ls)) && P + Flat(ls[..0]) == P && Flat(ls) + [] == Flat(ls)
  {
    assert ls[..0] == [] && ls[0..] == ls && P + [] == P;
  }

  /** Following a pointer to labels with anything behind them. */
  lemma LabelsFollowed(b: seq<byte>, s: nat, t: nat, ys: seq<Label>)
    requires ValidLabels(ys) && ys != [] && At(b, t, Flat(ys)) && t + |Flat(ys)| < |b| && t != s
    requires |GlueAll([], ys)| <= MAX_DOMAIN_LEN
    ensures var r, q := DecodeName(b, t, [s], true), t + |Flat(ys)|;
      if b[q] == 0 then r == Parsed(GlueAll([], ys), q + 1)
      else r.Failed? || |r.value| > |GlueAll([], ys)|
  {
    hide Flat, GlueAll, LabelsAt, ItemAt, Scan, At;
    var q, text := t + |Flat(ys)|, GlueAll([], ys);
    LabelsAtFlat(b, t, ys);
    ScanPrefix(b, t, true, [], ys, q, Scan(b, q, true, text));
    SomeText(ys);
    if b[q] == 0 {
      assert b[q..q + 1] == [0];
      ScanZero(b, q, text);
    } else {
      LongerText(b, q, text);
    }
  }

  lemma SomeText(ys: seq<Label>)
    requires ValidLabels(ys) && ys != []
    ensures GlueAll([], ys) != []
  {
    GlueAllExtends(Glue([], ys[0]), ys[1..]);
  }

  /** Reading on where there is no zero octet fails or adds to the text. */
  lemma LongerText(b: seq<byte>, q: nat, text: seq<byte>)
    requires q < |b| && b[q] != 0 && text != []
    ensures var r := Scan(b, q, true, text); r.Bad? || |r.text| > |text| || (r.Link? && r.text == text)
  {
    var i := ItemAt(b, q);
    if i.Text? {
      ScanExtends(b, i.next, true, Glue(text, i.octets));
    }
  }

  lemma DotLayout(b: seq<byte>, P: seq<byte>, text: seq<byte>)
    requires EndsWithDot(text) && NameOk(Plain(text)) && Plain(text) != []
    ensures AppendName(P, text, true) == Ok(AppendLabels(P, Split(Plain(text)), []))
    ensures ValidLabels(Split(Plain(text))) && GlueAll([], Split(Plain(text))) == Plain(text)
  {
    ScannedText(Plain(text));
    GlueAllIsExtend([], Split(Plain(text)));
  }

  lemma NoPointerRead(b: seq<byte>, P: seq<byte>, ls: seq<Label>)
    requires ValidLabels(ls) && AppendLabels(P, ls, []) <= b && DotCut(P, ls) == |ls|
    requires |GlueAll([], ls)| <= MAX_DOMAIN_LEN
    ensures DecodeName(b, |P|, [], true) == Parsed(GlueAll([], ls), |AppendLabels(P, ls, [])|)
  {
    hide AppendLabels, Flat;
    ClosingDotForm(P, ls);
    assert ls[..|ls|] == ls;
    AppendedAt(b, P, Flat(ls), [0]);
    LabelsAtFlat(b, |P|, ls);
    var q := |P| + |Flat(ls)|;
    ScanZero(b, q, GlueAll([], ls));
    ScanPrefix(b, |P|, true, [], ls, q, End(GlueAll([], ls), q + 1));
  }

  lemma AppendedAt(b: seq<byte>, P: seq<byte>, x: seq<byte>, y: seq<byte>)
    requires P + x + y <= b
    ensures At(b, |P|, x) && At(b, |P| + |x|, y) && |P| + |x| + |y| <= |b| && P + x <= b
  {
    assert P + x == (P + x + y)[..|P + x|];
    assert b[|P|..|P| + |x|] == (P + x + y)[|P|..|P| + |x|] == x;
    assert b[|P| + |x|..|P| + |x| + |y|] == (P + x + y)[|P| + |x|..] == y;
  }

  /** The name with the pointer: labels, and the jump to labels that still stand where they were found. */
  lemma PointerScan(b: seq<byte>, P: seq<byte>, xs: seq<Label>, ys: seq<Label>, t: nat)
    requires ValidLabels(xs) && ValidLabels(ys) && t < 0x4000
    requires At(P + Flat(xs), t, Flat(ys)) && P + Flat(xs) + U16(0xC000 + t) <= b && t < |P + Flat(xs)|
    ensures Scan(b, |P|, true, []) == Link(GlueAll([], xs), t, |P| + |Flat(xs)| + 2)
    ensures At(b, t, Flat(ys)) && |P| + |Flat(xs)| + 2 <= |b|
  {
    hide Flat, Scan, GlueAll, At;
    StillFound(b, P + Flat(xs), t, Flat(ys));
    AppendedAt(b, P, Flat(xs), U16(0xC000 + t));
    LabelsAtFlat(b, |P|, xs);
    var q := |P| + |Flat(xs)|;
    ScanPointer(b, q, GlueAll([], xs), t);
    ScanPrefix(b, |P|, true, [], xs, q, Link(GlueAll([], xs), t, q + 2));
  }

  /** What it reads as depends on what stands behind the labels found. */
  lemma PointerRead(b: seq<byte>, P: seq<byte>, ls: seq<Label>)
    requires ValidLabels(ls) && AppendLabels(P, ls, []) <= b && DotCut(P, ls) < |ls|
    requires |AppendLabels(P, ls, [])| <= 0x4000 && |GlueAll([], ls)| <= MAX_DOMAIN_LEN
    ensures PointsToWhole(b, P, ls) <==>
      DecodeName(b, |P|, [], true) == Parsed(GlueAll([], ls), |AppendLabels(P, ls, [])|)
  {
    hide AppendLabels, Flat, Scan, DecodeName, DotCut, GlueAll, At;
    ClosingDotForm(P, ls);
    var n := DotCut(P, ls);
    var xs, ys, t := ls[..n], ls[n..], Found(P, ls, n).value;
    Halves(P, ls, n);
    GlueAllSplits(GlueAll([], xs), ys);
    PointerScan(b, P, xs, ys, t);
    if t == |P| {
      OwnStartLoops(b, t);
    } else {
      LabelsFollowed(b, |P|, t, ys);
    }
    ReturnFromLink(b, |P|, GlueAll([], xs), t, |P| + |Flat(xs)| + 2, GlueAll([], ys));
  }

  lemma OwnStartLoops(b: seq<byte>, t: nat)
    requires t <= |b|
    ensures DecodeName(b, t, [t], true) == Failed(LinkLoop)
  {
  }

  lemma StillFound(b: seq<byte>, P: seq<byte>, t: nat, w: seq<byte>)
    requires P <= b && At(P, t, w)
    ensures At(b, t, w)
  {
    assert b[t..t + |w|] == P[t..t + |w|];
  }

  /** The pointer does not end the buffer, does not lead to the start of its own name, and leads to
      labels with a zero octet behind them. */
  predicate PointsToWhole(b: seq<byte>, P: seq<byte>, ls: seq<Label>)
    requires ShortLabels(ls) && DotCut(P, ls) < |ls|
  {
    var n := DotCut(P, ls);
    Found(P, ls, n).Some? &&
    var t := Found(P, ls, n).value;
    var q := t + |Flat(ls[n..])|;
    |AppendLabels(P, ls, [])| < |b| && t != |P| && q < |b| && b[q] == 0
  }

  /** A name that closes with a dot and is written with compression is read back without the dot if and
      only if no pointer is written, or the pointer leads to a complete name that is not its own. */
  lemma ClosingDotExact(b: seq<byte>, P: seq<byte>, text: seq<byte>)
    requires EndsWithDot(text) && NameOk(Plain(text)) && Plain(text) != []
    requires AppendName(P, text, true).Ok? && AppendName(P, text, true).value <= b
    requires |AppendName(P, text, true).value| <= 0x4000 && ShortLabels(Split(Plain(text)))
    ensures var ls := Split(Plain(text));
      DecodeName(b, |P|, [], true) == Parsed(Plain(text), |AppendName(P, text, true).value|) <==>
        (DotCut(P, ls) < |ls| ==> PointsToWhole(b, P, ls))
  {
    hide AppendLabels, AppendName, Split, DotCut, DecodeName, PointsToWhole, NameOk;
    DotLayout(b, P, text);
    assert |Plain(text)| <= MAX_DOMAIN_LEN by {
      PlainLength(text);
    }
    var ls := Split(Plain(text));
    if DotCut(P, ls) < |ls| {
      PointerRead(b, P, ls);
    } else {
      NoPointerRead(b, P, ls);
    }
  }

  lemma PlainLength(text: seq<byte>)
    requires EndsWithDot(text) && NameOk(Plain(text))
    ensures |Plain(text)| <= MAX_DOMAIN_LEN
  {
  }

  // ---------- two such names ----------

  const A: byte := 97
  const B: byte := 98

  /** One more label "a". */
  lemma OneMoreA(t: seq<byte>)
    ensures Split(t + [DOT, A]) == Split(t) + [[A]]
  {
    var u, v := t + [DOT], t + [DOT, A];
    assert u[..|t|] == t && v[..|u|] == u;
    var none: Label := [];
    assert Split(u) == Split(t) + [none];
    assert none + [A] == [A] && (Split(t) + [none])[..|Split(t)|] == Split(t);
  }

  /** The labels of "a" and of "a.a.a". */
  lemma LabelsOfA()
    ensures Split([A]) == [[A]] && Split([A, DOT, A, DOT, A]) == [[A], [A], [A]]
  {
    hide Split;
    SplitFirst();
    OneMoreA([A]);
    OneMoreA([A, DOT, A]);
    assert [A] + [DOT, A] == [A, DOT, A] && [A, DOT, A] + [DOT, A] == [A, DOT, A, DOT, A];
  }

  lemma SplitFirst()
    ensures Split([A]) == [[A]]
  {
    var none: Label := [];
    assert [A][..0] == none && none + [A] == [A] && [none][..0] + [[A]] == [[A]];
  }

  lemma FlatOfA()
    ensures Flat([[A]]) == [1, A] && Flat([[A], [A]]) == [1, A, 1, A] && Flat([[A], [A], [A]]) == [1, A, 1, A, 1, A]
  {
    assert [[A]][1..] == [] && [[A], [A]][1..] == [[A]] && [[A], [A], [A]][1..] == [[A], [A]];
    assert LabelWire([A]) == [1, A];
  }

  /** Written behind "a.b" the name "a." is a pointer to it, and is read as "a.b". */
  lemma ShortNameReadsAsLonger(rest: seq<byte>)
    requires rest != []
    ensures var P: seq<byte> := [1, A, 1, B, 0];
      && AppendName(P, [A, DOT], true) == Ok(P + U16(0xC000))
      && DecodeName(P + U16(0xC000) + rest, |P|, [], true) == Parsed([A, DOT, B], |P| + 2)
  {
    hide DecodeName;
    var P: seq<byte> := [1, A, 1, B, 0];
    LabelsOfA();
    FlatOfA();
    assert [A, DOT][..1] == [A];
    assert At(P, 0, [1, A]);
    assert Flat([[A]]) + [] == [1, A];
    assert AppendName(P, [A, DOT], true) == Ok(AppendLabels(P, [[A]], []));
    ReadsAsLonger(P + U16(0xC000) + rest);
  }

  lemma ReadsAsLonger(b: seq<byte>)
    requires [1, A, 1, B, 0, 0xC0, 0] <= b && |b| > 7
    ensures DecodeName(b, 5, [], true) == Parsed([A, DOT, B], 7)
  {
    assert forall i | 0 <= i < 7 :: b[i] == [1, A, 1, B, 0, 0xC0, 0][i];
    assert Scan(b, 5, true, []) == Link([], 0, 7);
    assert b[1..2] == [A] && b[3..4] == [B];
    assert ItemAt(b, 0) == Text([A], 2) && ItemAt(b, 2) == Text([B], 4) && ItemAt(b, 4) == Zero;
    assert Scan(b, 4, true, [A, DOT, B]) == End([A, DOT, B], 5);
    assert Scan(b, 2, true, [A]) == End([A, DOT, B], 5);
    assert Scan(b, 0, true, []) == End([A, DOT, B], 5);
    assert DecodeName(b, 0, [5], true) == Parsed([A, DOT, B], 5);
    assert [] + [5] == [5];
  }

  /** The name "a.a.a." is found inside itself: its pointer leads to its own start, which is a loop. */
  lemma PointerToOwnStart(rest: seq<byte>)
    ensures AppendName([], [A, DOT, A, DOT, A, DOT], true) == Ok([1, A, 1, A, 0xC0, 0])
    ensures DecodeName([1, A, 1, A, 0xC0, 0] + rest, 0, [], true) == Failed(LinkLoop)
  {
    hide DecodeName;
    LabelsOfA();
    FlatOfA();
    var text := [A, DOT, A, DOT, A, DOT];
    assert text[..5] == [A, DOT, A, DOT, A];
    var none: seq<byte> := [];
    var ls: seq<Label> := [[A], [A], [A]];
    assert ls[1..] == [[A], [A]];
    OwnStartWritten();
    assert none + LabelWire([A]) == [1, A];
    assert AppendLabels(none, ls, []) == AppendLabels([1, A], [[A], [A]], []);
    LoopsAtOwnStart([1, A, 1, A, 0xC0, 0] + rest);
  }

  lemma OwnStartWritten()
    ensures AppendLabels([1, A], [[A], [A]], []) == [1, A, 1, A, 0xC0, 0]
  {
    FlatOfA();
    assert [[A], [A]][1..] == [[A]];
    assert At([1, A, 1, A], 0, [1, A]);
    assert Flat([[A]]) + [] == [1, A];
    assert AppendLabels([1, A, 1, A], [[A]], []) == [1, A, 1, A] + U16(0xC000);
    assert [1, A] + LabelWire([A]) == [1, A, 1, A];
  }

  lemma LoopsAtOwnStart(b: seq<byte>)
    requires [1, A, 1, A, 0xC0, 0] <= b
    ensures DecodeName(b, 0, [], true) == Failed(LinkLoop)
  {
    assert forall i | 0 <= i < 6 :: b[i] == [1, A, 1, A, 0xC0, 0][i];
    assert b[1..2] == [A] && b[3..4] == [A];
    assert ItemAt(b, 0) == Text([A], 2) && ItemAt(b, 2) == Text([A], 4) && ItemAt(b, 4) == Pointer;
    assert Scan(b, 4, true, [A, DOT, A]) == Link([A, DOT, A], 0, 6);
    assert Scan(b, 2, true, [A]) == Link([A, DOT, A], 0, 6);
    assert Scan(b, 0, true, []) == Link([A, DOT, A], 0, 6);
    assert [] + [0] == [0];
    OwnStartLoops(b, 0);
  }
}
