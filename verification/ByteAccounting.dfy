/** Every octet of an accepted message belongs to the header, to a question or to a record, although
    names may jump anywhere. */
module ByteAccounting {
  import opened Octets
  import opened Records
  import opened Messages

  /** A question stands in `b` from `p` to `q`. */
  predicate QuestionSpans(b: seq<byte>, p: nat, q: nat) {
    p <= |b| && DecodeQuestion(b, p).Parsed? && DecodeQuestion(b, p).next == q
  }

  /** A record stands in `b` from `p` to `q`. */
  predicate RecordSpans(b: seq<byte>, p: nat, q: nat) {
    p <= |b| && DecodeRecord(b, p).Parsed? && DecodeRecord(b, p).next == q
  }

  type Span = (nat, nat) -> bool

  function AQuestion(b: seq<byte>): Span { (p: nat, q: nat) => QuestionSpans(b, p, q) }

  function ARecord(b: seq<byte>): Span { (p: nat, q: nat) => RecordSpans(b, p, q) }

  /** Between any two neighbouring cuts stands one item. */
  predicate Tiles(item: Span, cuts: seq<nat>) {
    forall i | 0 < i < |cuts| :: item(cuts[i - 1], cuts[i])
  }

  /** Items tile the stretch from `from` to `to`, which `cuts` splits into `n` pieces. */
  predicate Section(item: Span, cuts: seq<nat>, n: nat, from: nat, to: nat) {
    |cuts| == n + 1 && cuts[0] == from && cuts[n] == to && Tiles(item, cuts)
  }

  lemma OneMore(item: Span, from: nat, next: nat, to: nat, rest: seq<nat>, n: nat)
    requires item(from, next) && Section(item, rest, n, next, to)
    ensures Section(item, [from] + rest, n + 1, from, to)
  {
    var cuts := [from] + rest;
    forall i | 0 < i < |cuts| ensures item(cuts[i - 1], cuts[i]) {
      assert cuts[i] == rest[i - 1] && (i > 1 ==> cuts[i - 1] == rest[i - 2]);
    }
  }

  // ---------- questions ----------

  lemma FirstQuestion(b: seq<byte>, pos: nat, n: nat) returns (next: nat)
    requires pos <= |b| && n > 0 && DecodeQuestions(b, pos, n).Parsed?
    ensures next <= |b| && AQuestion(b)(pos, next) && DecodeQuestions(b, next, n - 1).Parsed?
    ensures DecodeQuestions(b, next, n - 1).next == DecodeQuestions(b, pos, n).next
  {
    next := DecodeQuestion(b, pos).next;
  }

  lemma {:induction false} QuestionsTile(b: seq<byte>, pos: nat, n: nat) returns (cuts: seq<nat>)
    requires pos <= |b| && DecodeQuestions(b, pos, n).Parsed?
    ensures Section(AQuestion(b), cuts, n, pos, DecodeQuestions(b, pos, n).next)
    decreases n
  {
    if n == 0 {
      cuts := [pos];
    } else {
      var next := FirstQuestion(b, pos, n);
      var rest := QuestionsTile(b, next, n - 1);
      OneMore(AQuestion(b), pos, next, DecodeQuestions(b, pos, n).next, rest, n - 1);
      cuts := [pos] + rest;
    }
  }

  // ---------- records ----------

  lemma FirstRecord(b: seq<byte>, pos: nat, n: nat) returns (next: nat)
    requires pos <= |b| && n > 0 && DecodeRecords(b, pos, n).Parsed?
    ensures next <= |b| && ARecord(b)(pos, next) && DecodeRecords(b, next, n - 1).Parsed?
    ensures DecodeRecords(b, next, n - 1).next == DecodeRecords(b, pos, n).next
  {
    next := DecodeRecord(b, pos).next;
  }

  lemma {:induction false} RecordsTile(b: seq<byte>, pos: nat, n: nat) returns (cuts: seq<nat>)
    requires pos <= |b| && DecodeRecords(b, pos, n).Parsed?
    ensures Section(ARecord(b), cuts, n, pos, DecodeRecords(b, pos, n).next)
    decreases n
  {
    if n == 0 {
      cuts := [pos];
    } else {
      var next := FirstRecord(b, pos, n);
      var rest := RecordsTile(b, next, n - 1);
      OneMore(ARecord(b), pos, next, DecodeRecords(b, pos, n).next, rest, n - 1);
      cuts := [pos] + rest;
    }
  }

  // ---------- sizes ----------

  /** The sizes of the pieces between the cuts. */
  function Sizes(cuts: seq<nat>): seq<int>
    decreases |cuts|
  {
    if |cuts| < 2 then [] else [cuts[1] as int - cuts[0]] + Sizes(cuts[1..])
  }

  function Sum(xs: seq<int>): int {
    if xs == [] then 0 else xs[0] + Sum(xs[1..])
  }

  lemma {:induction false} SizesAddUp(cuts: seq<nat>)
    requires cuts != []
    ensures cuts[0] + Sum(Sizes(cuts)) == cuts[|cuts| - 1]
    decreases |cuts|
  {
    if |cuts| > 1 {
      SizesAddUp(cuts[1..]);
      assert Sizes(cuts)[1..] == Sizes(cuts[1..]);
    }
  }

  lemma {:induction false} EachAtLeast(cuts: seq<nat>, least: nat)
    requires cuts != [] && forall i | 0 < i < |cuts| :: cuts[i] - cuts[i - 1] >= least
    ensures cuts[|cuts| - 1] - cuts[0] >= least * (|cuts| - 1)
    decreases |cuts|
  {
    if |cuts| > 1 {
      var rest := cuts[1..];
      forall i | 0 < i < |rest| ensures rest[i] - rest[i - 1] >= least {
        assert rest[i] == cuts[i + 1] && rest[i - 1] == cuts[i];
      }
      EachAtLeast(rest, least);
    }
  }

  // ---------- messages ----------

  lemma SectionBorders(b: seq<byte>, p0: nat, c: RawCounts) returns (p1: nat, p2: nat)
    requires p0 <= |b| && DecodeSections(b, p0, c).Parsed?
    ensures DecodeRecords(b, p0, c.an).Parsed? && DecodeRecords(b, p0, c.an).next == p1 <= |b|
    ensures DecodeRecords(b, p1, c.ns).Parsed? && DecodeRecords(b, p1, c.ns).next == p2 <= |b|
    ensures DecodeRecords(b, p2, c.ar).Parsed? && DecodeRecords(b, p2, c.ar).next == DecodeSections(b, p0, c).next
  {
    p1 := DecodeRecords(b, p0, c.an).next;
    p2 := DecodeRecords(b, p1, c.ns).next;
  }

  /** Where the sections of an accepted message begin and end. */
  lemma Borders(b: seq<byte>) returns (c: RawCounts, p0: nat, p1: nat, p2: nat)
    requires DecodeMessage(b, 0).Parsed?
    ensures var m := DecodeMessage(b, 0).value;
      |m.queries| == c.qd && |m.answers| == c.an && |m.authorities| == c.ns && |m.additional| == c.ar
    ensures 12 <= |b| && DecodeQuestions(b, 12, c.qd).Parsed? && DecodeQuestions(b, 12, c.qd).next == p0 <= |b|
    ensures DecodeRecords(b, p0, c.an).Parsed? && DecodeRecords(b, p0, c.an).next == p1 <= |b|
    ensures DecodeRecords(b, p1, c.ns).Parsed? && DecodeRecords(b, p1, c.ns).next == p2 <= |b|
    ensures DecodeRecords(b, p2, c.ar).Parsed? && DecodeRecords(b, p2, c.ar).next == |b|
  {
    c := DecodeHeader(b).value.counts;
    p0 := DecodeQuestions(b, 12, c.qd).next;
    p1, p2 := SectionBorders(b, p0, c);
  }

  /** Where the questions and the records of an accepted message stand: they tile the octets behind
      the header, one right behind another, up to the very end of the buffer, so that their sizes
      and the header's add up to the size of the buffer. */
  lemma EveryOctetAccountedFor(b: seq<byte>)
    returns (c: RawCounts, qs: seq<nat>, x: seq<nat>, y: seq<nat>, z: seq<nat>)
    requires DecodeMessage(b, 0).Parsed?
    ensures var m := DecodeMessage(b, 0).value;
      |m.queries| == c.qd && |m.answers| == c.an && |m.authorities| == c.ns && |m.additional| == c.ar
    ensures |qs| > 0 && |x| > 0 && |y| > 0
    ensures Section(AQuestion(b), qs, c.qd, 12, qs[|qs| - 1])
    ensures Section(ARecord(b), x, c.an, qs[|qs| - 1], x[|x| - 1])
    ensures Section(ARecord(b), y, c.ns, x[|x| - 1], y[|y| - 1])
    ensures Section(ARecord(b), z, c.ar, y[|y| - 1], |b|)
    ensures 12 + Sum(Sizes(qs)) + Sum(Sizes(x)) + Sum(Sizes(y)) + Sum(Sizes(z)) == |b|
  {
    var p0, p1, p2;
    c, p0, p1, p2 := Borders(b);
    qs := QuestionsTile(b, 12, c.qd);
    x := RecordsTile(b, p0, c.an);
    y := RecordsTile(b, p1, c.ns);
    z := RecordsTile(b, p2, c.ar);
    SizesAddUp(qs);
    SizesAddUp(x);
    SizesAddUp(y);
    SizesAddUp(z);
  }

  /** A question takes at least an octet for the name and four for its type and class. */
  lemma QuestionSize(b: seq<byte>, p: nat, q: nat)
    requires AQuestion(b)(p, q)
    ensures q - p >= 5
  {
  }

  /** A record takes at least an octet for the name, ten for the fixed fields, and for its RDATA what
      RDLENGTH announces. */
  lemma RecordSize(b: seq<byte>, p: nat, q: nat)
    requires ARecord(b)(p, q)
    ensures p <= |b| && q - p >= 11 + RdLength(b, p)
  {
  }

  lemma QuestionsTakeRoom(b: seq<byte>, cuts: seq<nat>, n: nat, from: nat, to: nat)
    requires Section(AQuestion(b), cuts, n, from, to)
    ensures to - from >= 5 * n
  {
    forall i | 0 < i < |cuts| ensures cuts[i] - cuts[i - 1] >= 5 {
      QuestionSize(b, cuts[i - 1], cuts[i]);
    }
    EachAtLeast(cuts, 5);
  }

  lemma RecordsTakeRoom(b: seq<byte>, cuts: seq<nat>, n: nat, from: nat, to: nat)
    requires Section(ARecord(b), cuts, n, from, to)
    ensures to - from >= 11 * n
  {
    forall i | 0 < i < |cuts| ensures cuts[i] - cuts[i - 1] >= 11 {
      RecordSize(b, cuts[i - 1], cuts[i]);
    }
    EachAtLeast(cuts, 11);
  }

  /** So the counts in the header of an accepted message are small. */
  lemma CountsAreBounded(b: seq<byte>)
    requires DecodeMessage(b, 0).Parsed?
    ensures var m := DecodeMessage(b, 0).value;
      12 + 5 * |m.queries| + 11 * (|m.answers| + |m.authorities| + |m.additional|) <= |b| <= MAX_MSG_LEN
  {
    var c, qs, x, y, z := EveryOctetAccountedFor(b);
    QuestionsTakeRoom(b, qs, c.qd, 12, qs[|qs| - 1]);
    RecordsTakeRoom(b, x, c.an, qs[|qs| - 1], x[|x| - 1]);
    RecordsTakeRoom(b, y, c.ns, x[|x| - 1], y[|y| - 1]);
    RecordsTakeRoom(b, z, c.ar, y[|y| - 1], |b|);
  }
}
