/** Octets, results, and the fixed-width fields that `Buffer` reads and writes. */
module Octets {

  type byte = x: int | 0 <= x < 256

  /** C++ `unsigned int`. */
  type uint = x: int | 0 <= x < 0x1_0000_0000

  datatype Option<+T> = None | Some(value: T)

  /** Why an operation threw. `ScratchOverrun` stands for the write one past the scratch array, and
      `PopFromEmpty` for taking a character from an empty string, which both are undefined behaviour. */
  datatype Error =
    | BehindBuffer
    | PosBehindBuffer
    | LinkLoop
    | LinkNotAllowed
    | LabelTooLong
    | NameTooLong
    | ScratchOverrun
    | RDataSizeMismatch
    | PopFromEmpty
    | MessageTooLong
    | MessageNotEmpty

  /** The outcome of a call that may throw. */
  datatype Result<+T> = Ok(value: T) | Throw(error: Error) {
    predicate IsFailure() { Throw? }

    function PropagateFailure<U>(): Result<U>
      requires Throw?
    {
      Throw(error)
    }

    function Extract(): T
      requires Ok?
    {
      value
    }
  }

  /** The outcome of reading at a position: the value and where the cursor stands after it. */
  datatype Parsed<+T> = Parsed(value: T, next: nat) | Failed(error: Error) {
    predicate IsFailure() { Failed? }

    function PropagateFailure<U>(): Parsed<U>
      requires Failed?
    {
      Failed(error)
    }

    function Extract(): (T, nat)
      requires Parsed?
    {
      (value, next)
    }
  }

  /** The outcome of reading on when the items `done` are already read. */
  function After<T>(done: seq<T>, r: Parsed<seq<T>>): Parsed<seq<T>> {
    match r case Failed(e) => Failed(e) case Parsed(rest, next) => Parsed(done + rest, next)
  }

  lemma NothingBefore<T>(r: Parsed<seq<T>>)
    ensures After([], r) == r
  {
    if r.Parsed? {
      assert [] + r.value == r.value;
    }
  }

  lemma MoreBefore<T>(done: seq<T>, xs: seq<T>, r: Parsed<seq<T>>)
    ensures After(done + xs, r) == After(done, After(xs, r))
  {
    if r.Parsed? {
      assert done + xs + r.value == done + (xs + r.value);
    }
  }

  lemma OneMoreBefore<T>(done: seq<T>, x: T, r: Parsed<seq<T>>)
    ensures After(done + [x], r) == After(done, After([x], r))
  {
    if r.Parsed? {
      assert done + [x] + r.value == done + ([x] + r.value);
    }
  }

  // ---------- what the put methods write ----------

  function U16(n: nat): (r: seq<byte>) {
    [n / 0x100 % 0x100, n % 0x100]
  }

  function U32(n: nat): (r: seq<byte>) {
    [n / 0x100_0000 % 0x100, n / 0x1_0000 % 0x100, n / 0x100 % 0x100, n % 0x100]
  }

  /** A length octet (truncated to eight bits, as the code does) and the octets themselves. */
  function CharString(s: seq<byte>): seq<byte> {
    [|s| % 0x100] + s
  }

  // ---------- what the get methods read ----------

  function Get8(b: seq<byte>, pos: nat): Parsed<byte> {
    if pos + 1 > |b| then Failed(BehindBuffer) else Parsed(b[pos], pos + 1)
  }

  function Get16(b: seq<byte>, pos: nat): Parsed<uint> {
    if pos + 2 > |b| then Failed(BehindBuffer)
    else Parsed(b[pos] as int * 0x100 + b[pos + 1], pos + 2)
  }

  function Get32(b: seq<byte>, pos: nat): Parsed<uint> {
    if pos + 4 > |b| then Failed(BehindBuffer)
    else Parsed(b[pos] as int * 0x100_0000 + b[pos + 1] as int * 0x1_0000
                + b[pos + 2] as int * 0x100 + b[pos + 3], pos + 4)
  }

  function GetBytes(b: seq<byte>, pos: nat, count: nat): Parsed<seq<byte>> {
    if pos + count > |b| then Failed(BehindBuffer) else Parsed(b[pos..pos + count], pos + count)
  }

  function GetCharString(b: seq<byte>, pos: nat): Parsed<seq<byte>> {
    if pos + 1 > |b| then Failed(BehindBuffer) else GetBytes(b, pos + 1, b[pos])
  }

  // ---------- regions of a buffer ----------

  /** The octets `w` stand in `b` at offset `p`. */
  predicate At(b: seq<byte>, p: nat, w: seq<byte>) {
    p + |w| <= |b| && b[p..p + |w|] == w
  }

  lemma AtConcat(b: seq<byte>, p: nat, x: seq<byte>, y: seq<byte>)
    ensures At(b, p, x + y) <==> At(b, p, x) && At(b, p + |x|, y)
  {
    if At(b, p, x + y) {
      assert b[p..p + |x|] == (x + y)[..|x|] == x;
      assert b[p + |x|..p + |x| + |y|] == (x + y)[|x|..] == y;
    }
    if At(b, p, x) && At(b, p + |x|, y) {
      assert b[p..p + |x + y|] == b[p..p + |x|] + b[p + |x|..p + |x| + |y|];
    }
  }

  lemma Field16(b: seq<byte>, p: nat, n: nat)
    requires At(b, p, U16(n)) && n < 0x1_0000
    ensures Get16(b, p) == Parsed(n, p + 2)
  {
    assert b[p] == b[p..p + 2][0] && b[p + 1] == b[p..p + 2][1];
  }

  lemma Remainder(n: nat, k: nat, r: nat)
    requires n == k * 65536 + r && r < 65536
    ensures n % 65536 == r
  {
  }

  /** The two octets of the low sixteen bits. */
  lemma LowOctets(n: nat)
    ensures |U16(n)| == 2 && U16(n)[0] as int * 256 + U16(n)[1] == n % 65536
    ensures U16(n)[0] == n / 0x100 % 0x100 && U16(n)[1] == n % 0x100
  {
    var q := n / 0x100;
    assert n == q * 0x100 + n % 0x100 && q == q / 0x100 * 0x100 + q % 0x100;
    Remainder(n, q / 0x100, q % 0x100 * 0x100 + n % 0x100);
  }

  lemma Digits(n: nat)
    requires n < 0x1_0000_0000
    ensures n / 0x100_0000 % 0x100 * 0x100_0000 + n / 0x1_0000 % 0x100 * 0x1_0000
            + n / 0x100 % 0x100 * 0x100 + n % 0x100 == n
  {
    var h := n / 0x1_0000;
    assert n / 0x100_0000 == h / 0x100;
  }

  lemma Field32(b: seq<byte>, p: nat, n: nat)
    requires At(b, p, U32(n)) && n < 0x1_0000_0000
    ensures Get32(b, p) == Parsed(n, p + 4)
  {
    Digits(n);
    var w := b[p..p + 4];
    assert b[p] == w[0] && b[p + 1] == w[1] && b[p + 2] == w[2] && b[p + 3] == w[3];
  }

  /** A character string comes back exactly when its length fits the length octet. */
  lemma CharStringRoundTrip(b: seq<byte>, p: nat, s: seq<byte>)
    requires At(b, p, CharString(s))
    ensures |s| <= 255 <==> GetCharString(b, p) == Parsed(s, p + 1 + |s|)
  {
    AtConcat(b, p, [|s| % 0x100], s);
    assert b[p] == b[p..p + 1][0];
  }
}
