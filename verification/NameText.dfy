/** Facts about the text of a name, its labels and their wire form. */
module NameText {
  import opened Octets
  import opened Names

  /** Splitting one more character either opens a new label or extends the last one. */
  lemma SplitNext(t: seq<byte>, i: nat)
    requires i < |t|
    ensures var ls := Split(t[..i]);
      Split(t[..i + 1]) == if t[i] == DOT then ls + [[]] else ls[..|ls| - 1] + [ls[|ls| - 1] + [t[i]]]
  {
    assert t[..i + 1][..i] == t[..i];
  }

  /** Joining with dots undoes splitting at dots, for every text. */
  lemma {:induction false} JoinSplit(t: seq<byte>)
    ensures Join(Split(t)) == t
  {
    if t != [] {
      var s := t[..|t| - 1];
      JoinSplit(s);
      JoinLast(Split(s), t[|t| - 1]);
      assert t == s + [t[|t| - 1]];
    }
  }

  lemma {:induction false} JoinLast(ls: seq<Label>, c: byte)
    requires ls != []
    ensures Join(ls + [[]]) == Join(ls) + [DOT]
    ensures Join(ls[..|ls| - 1] + [ls[|ls| - 1] + [c]]) == Join(ls) + [c]
  {
    if |ls| > 1 {
      JoinLast(ls[1..], c);
      assert (ls + [[]])[1..] == ls[1..] + [[]];
      var m := ls[..|ls| - 1] + [ls[|ls| - 1] + [c]];
      assert m[1..] == ls[1..][..|ls| - 2] + [ls[1..][|ls| - 2] + [c]];
    }
  }

  lemma {:induction false} FlatConcat(xs: seq<Label>, ys: seq<Label>)
    requires ShortLabels(xs) && ShortLabels(ys)
    ensures ShortLabels(xs + ys) && Flat(xs + ys) == Flat(xs) + Flat(ys)
  {
    if xs == [] {
      assert xs + ys == ys;
    } else {
      FlatConcat(xs[1..], ys);
      assert (xs + ys)[1..] == xs[1..] + ys;
      Regroup(LabelWire(xs[0]), Flat(xs[1..]), Flat(ys));
    }
  }

  lemma Regroup(x: seq<byte>, y: seq<byte>, z: seq<byte>)
    ensures x + (y + z) == (x + y) + z && (x + y)[|x|..] == y
  {
  }

  /** The text that reading the labels `ls` adds to `acc`. */
  function Extend(acc: seq<byte>, ls: seq<Label>): seq<byte> {
    if ls == [] then acc else Glue(acc, Join(ls))
  }

  lemma ExtendStep(acc: seq<byte>, ls: seq<Label>)
    requires ValidLabels(ls) && ls != []
    ensures Extend(Glue(acc, ls[0]), ls[1..]) == Extend(acc, ls)
  {
  }

  /** A valid non-empty text is the join of its scanned labels. */
  lemma ScannedText(t: seq<byte>)
    requires NameOk(t) && t != []
    ensures !EndsWithDot(t) && ValidLabels(ScannedLabels(t)) && Extend([], ScannedLabels(t)) == t
  {
    JoinSplit(t);
    var ls := Split(t);
    assert ls[|ls| - 1] != [];
  }

  /** The scratch form of a name has one octet per character, one length octet and the zero octet. */
  lemma {:induction false} FlatLength(t: seq<byte>)
    requires ShortLabels(Split(t))
    ensures |Flat(Split(t))| == |t| + 1
  {
    if t != [] {
      var s := t[..|t| - 1];
      var ls := Split(s);
      if t[|t| - 1] == DOT {
        assert forall i | 0 <= i < |ls| :: ls[i] == Split(t)[i];
        FlatLength(s);
        FlatConcat(ls, [[]]);
      } else {
        var init, last := ls[..|ls| - 1], ls[|ls| - 1];
        var full := last + [t[|t| - 1]];
        assert Split(t) == init + [full];
        assert forall i | 0 <= i < |init| :: init[i] == Split(t)[i];
        assert Split(t)[|init|] == full;
        assert ls == init + [last];
        FlatLength(s);
        FlatConcat(init, [last]);
        FlatConcat(init, [full]);
      }
    }
  }

  /** Reading on past `t[..i]` never changes the labels that are already complete. */
  lemma {:induction false} CompleteLabels(t: seq<byte>, i: nat)
    requires i <= |t|
    ensures var ls := Split(t[..i]); |ls| <= |Split(t)| && ls[..|ls| - 1] <= Split(t)
    ensures i < |t| && t[i] == DOT ==> |Split(t[..i])| < |Split(t)| && Split(t[..i]) <= Split(t)
    decreases |t|
  {
    if i == |t| {
      assert t[..i] == t;
    } else {
      var s := t[..|t| - 1];
      assert s[..i] == t[..i];
      var m := |Split(s)|;
      assert Split(s)[..m - 1] <= Split(t);
      if i < |s| {
        CompleteLabels(s, i);
        var ls := Split(t[..i]);
        assert ls[..|ls| - 1] <= Split(s)[..m - 1];
      } else {
        assert s == t[..i];
      }
    }
  }

  /** A label that ends at `t[..i]`, by a dot or by the end of the text, is among the scanned ones. */
  lemma ScannedSoFar(t: seq<byte>, i: nat)
    requires t != [] && i <= |t| && (i < |t| ==> t[i] == DOT) && (i == |t| ==> !EndsWithDot(t))
    ensures Split(t[..i]) <= ScannedLabels(t)
    ensures i == |t| || i == |t| - 1 ==> Split(t[..i]) == ScannedLabels(t)
  {
    if i == |t| {
      assert t[..i] == t;
    } else if i < |t| - 1 {
      var s := if EndsWithDot(t) then t[..|t| - 1] else t;
      assert s[..i] == t[..i];
      CompleteLabels(s, i);
    }
  }

  /** The scratch form with the labels `xs` written and `ls` to come splits at the offset of `ls`. */
  lemma FlatSuffix(ls: seq<Label>, i: nat, tail: seq<byte>)
    requires ShortLabels(ls) && i <= |ls|
    ensures ShortLabels(ls[..i]) && ShortLabels(ls[i..])
    ensures |Flat(ls[..i])| <= |Flat(ls) + tail|
    ensures (Flat(ls) + tail)[|Flat(ls[..i])|..] == Flat(ls[i..]) + tail
  {
    assert ls == ls[..i] + ls[i..];
    FlatConcat(ls[..i], ls[i..]);
    Regroup(Flat(ls[..i]), Flat(ls[i..]), tail);
    Regroup(Flat(ls[..i]), Flat(ls[i..]) + tail, []);
  }
}
