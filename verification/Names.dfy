/** Domain names: their text, their labels, and how `Buffer` reads and writes them. */
module Names {
  import opened Octets

  const DOT: byte := 46
  const MAX_LABEL_LEN := 63
  const MAX_DOMAIN_LEN := 255

  type Label = seq<byte>

  // ---------- text and labels ----------

  /** The stretches of `t` between dots; never empty. */
  function Split(t: seq<byte>): (ls: seq<Label>)
    ensures |ls| >= 1
  {
    if t == [] then [[]]
    else
      var ls := Split(t[..|t| - 1]);
      var c := t[|t| - 1];
      if c == DOT then ls + [[]] else ls[..|ls| - 1] + [ls[|ls| - 1] + [c]]
  }

  function Join(ls: seq<Label>): seq<byte> {
    if ls == [] then []
    else if |ls| == 1 then ls[0]
    else ls[0] + [DOT] + Join(ls[1..])
  }

  /** Appends a further label or link target to the text read so far. */
  function Glue(acc: seq<byte>, more: seq<byte>): seq<byte> {
    if acc == [] then more else acc + [DOT] + more
  }

  predicate EndsWithDot(t: seq<byte>) {
    t != [] && t[|t| - 1] == DOT
  }

  /** The labels that the scan loop sees: a dot at the very end opens no label. */
  function ScannedLabels(t: seq<byte>): seq<Label> {
    Split(if EndsWithDot(t) then t[..|t| - 1] else t)
  }

  /** The octet after the last label; a text with a dot at its end gets none. */
  function Terminator(t: seq<byte>): seq<byte> {
    if EndsWithDot(t) then [] else [0]
  }

  predicate ShortLabels(ls: seq<Label>) {
    forall i | 0 <= i < |ls| :: |ls[i]| <= MAX_LABEL_LEN
  }

  predicate ValidLabels(ls: seq<Label>) {
    forall i | 0 <= i < |ls| :: 1 <= |ls[i]| <= MAX_LABEL_LEN
  }

  /** The names that the encoder and the decoder agree on: the root, or dotted non-empty labels. */
  predicate NameOk(t: seq<byte>) {
    t == [] || (|t| <= 254 && ValidLabels(Split(t)))
  }

  // ---------- wire form ----------

  function LabelWire(l: Label): seq<byte>
    requires |l| <= MAX_LABEL_LEN
  {
    [|l|] + l
  }

  function Flat(ls: seq<Label>): seq<byte>
    requires ShortLabels(ls)
  {
    if ls == [] then [] else LabelWire(ls[0]) + Flat(ls[1..])
  }

  // ---------- writing ----------

  /** The lowest offset from `from` on at which `w` stands in `P` and ends strictly before its end. */
  function FindFrom(P: seq<byte>, w: seq<byte>, from: nat): (r: Option<nat>)
    ensures r.Some? ==> from <= r.value && r.value + |w| < |P| && At(P, r.value, w)
    ensures r.Some? ==> forall t: nat | from <= t < r.value :: !At(P, t, w)
    ensures r.None? ==> forall t: nat | from <= t && t + |w| < |P| :: !At(P, t, w)
    decreases |P| - from
  {
    if from + |w| >= |P| then None
    else if At(P, from, w) then Some(from)
    else FindFrom(P, w, from + 1)
  }

  function FirstMatch(P: seq<byte>, w: seq<byte>): Option<nat> {
    FindFrom(P, w, 0)
  }

  /** The buffer `P` after the compressing loop has written the labels `ls`. */
  function AppendLabels(P: seq<byte>, ls: seq<Label>, tail: seq<byte>): (Q: seq<byte>)
    requires ShortLabels(ls)
    ensures P <= Q && |Q| > |P|
    decreases |ls|
  {
    if ls == [] then P + [0]
    else
      match FirstMatch(P, Flat(ls) + tail)
      case Some(t) => P + U16(0xC000 + t)
      case None => AppendLabels(P + LabelWire(ls[0]), ls[1..], tail)
  }

  /** The buffer `P` after `putDnsDomainName`, as long as there is room. */
  function AppendName(P: seq<byte>, text: seq<byte>, compress: bool): (r: Result<seq<byte>>)
    ensures r.Ok? ==> P <= r.value && |P| < |r.value|
    ensures NameOk(text) ==> r.Ok?
  {
    if |text| > MAX_DOMAIN_LEN then Throw(NameTooLong)
    else if text == [] then Ok(P + [0])
    else if !ShortLabels(ScannedLabels(text)) then Throw(LabelTooLong)
    else if |text| == MAX_DOMAIN_LEN && !EndsWithDot(text) then Throw(ScratchOverrun)
    else if compress then Ok(AppendLabels(P, ScannedLabels(text), Terminator(text)))
    else Ok(P + (Flat(ScannedLabels(text)) + Terminator(text)))
  }

  /** Why a text cannot be written as a name, if it cannot. */
  function NameError(text: seq<byte>): Option<Error> {
    if |text| > MAX_DOMAIN_LEN then Some(NameTooLong)
    else if text == [] then None
    else if !ShortLabels(ScannedLabels(text)) then Some(LabelTooLong)
    else if |text| == MAX_DOMAIN_LEN && !EndsWithDot(text) then Some(ScratchOverrun)
    else None
  }

  lemma NameErrorExact(P: seq<byte>, text: seq<byte>, compress: bool)
    ensures match AppendName(P, text, compress)
            case Throw(e) => NameError(text) == Some(e)
            case Ok(_) => NameError(text) == None
  {
  }

  // ---------- reading ----------

  /** What one round of the reading loop finds at the cursor. */
  datatype Item =
    | Zero
    | Text(octets: Label, next: nat)
    | Pointer
    | Wrong(error: Error)

  function ItemAt(b: seq<byte>, pos: nat): (r: Item)
    ensures r.Text? ==> pos < r.next <= |b| && r.octets != []
    ensures r.Zero? || r.Pointer? ==> pos < |b|
    ensures r.Wrong? ==> r.error != LinkLoop
  {
    if pos >= |b| then Wrong(BehindBuffer)
    else if b[pos] == 0 then Zero
    else if b[pos] >= 0xC0 then Pointer  // the two high bits are ones
    else if b[pos] > MAX_LABEL_LEN then Wrong(LabelTooLong)
    else if pos + 1 + b[pos] > |b| then Wrong(BehindBuffer)
    else Text(b[pos + 1..pos + 1 + b[pos]], pos + 1 + b[pos])
  }

  /** How the reading loop ends: at the zero octet, at a pointer, or in an error. */
  datatype Segment =
    | End(text: seq<byte>, next: nat)
    | Link(text: seq<byte>, addr: nat, next: nat)
    | Bad(error: Error)

  /** A pointer at `pos`: allowed, complete, and with a target inside the buffer. */
  function ReadPointer(b: seq<byte>, pos: nat, links: bool, acc: seq<byte>): (r: Segment)
    requires pos < |b| && b[pos] >= 0xC0
    ensures r.Bad? ==> r.error != LinkLoop
    ensures r.Bad? || (r.Link? && r.next == pos + 2 <= |b| && r.addr < |b| && links && r.text == acc)
  {
    if !links then Bad(LinkNotAllowed)
    else if pos + 1 == |b| then Bad(BehindBuffer)
    else
      var addr := (b[pos] as int - 0xC0) * 0x100 + b[pos + 1];
      if addr >= |b| then Bad(PosBehindBuffer) else Link(acc, addr, pos + 2)
  }

  /** The reading loop from `pos` on, with `acc` the text read so far. */
  function Scan(b: seq<byte>, pos: nat, links: bool, acc: seq<byte>): (r: Segment)
    ensures r.End? ==> pos < r.next <= |b|
    ensures r.Link? ==> pos < r.next <= |b| && r.addr < |b| && links
    ensures r.Bad? ==> r.error != LinkLoop
    decreases |b| - pos
  {
    match ItemAt(b, pos)
    case Zero => End(acc, pos + 1)
    case Pointer => ReadPointer(b, pos, links, acc)
    case Wrong(e) => Bad(e)
    case Text(octets, next) => Scan(b, next, links, Glue(acc, octets))
  }

  /** The cursor positions that are not yet in the list of visited ones. */
  ghost function Unvisited(b: seq<byte>, visited: seq<nat>): set<nat> {
    set i: nat | i <= |b| && i !in visited
  }

  function Bounded(text: seq<byte>, next: nat): Parsed<seq<byte>> {
    if |text| > MAX_DOMAIN_LEN then Failed(NameTooLong) else Parsed(text, next)
  }

  /** `getDnsDomainName`: refuse a visited position, read labels, follow a pointer, restore the
      cursor, bound the length. */
  function DecodeName(b: seq<byte>, pos: nat, visited: seq<nat>, links: bool): (r: Parsed<seq<byte>>)
    requires pos <= |b|
    ensures r.Parsed? ==> pos < r.next <= |b| && |r.value| <= MAX_DOMAIN_LEN
    decreases Unvisited(b, visited)
  {
    if pos in visited then Failed(LinkLoop)
    else
      match Scan(b, pos, links, [])
      case Bad(e) => Failed(e)
      case End(text, next) => Bounded(text, next)
      case Link(text, addr, next) =>
        assert pos in Unvisited(b, visited) && pos !in Unvisited(b, visited + [pos]);
        var (linked, _) :- DecodeName(b, addr, visited + [pos], true);
        if next >= |b| then Failed(PosBehindBuffer) else Bounded(Glue(text, linked), next)
  }
}
