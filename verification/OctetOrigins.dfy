/** Where each octet that has gone through a relay, or is scheduled, was received from, if it was received
    at all; and how many octets that were received are neither. */
module OctetOrigins {
  import opened Octets
  import opened SessionSpec
  import opened SessionRuns
  import opened SessionSafety
  import opened Relay

  /** An octet has a place in the stream of the peer, or is one that stood in a buffer. */
  datatype Provenance = FromPeer(index: nat) | NeverReceived

  /** Every octet of `to` that has a place in `from` is the octet there, and the places are in order, so that
      none is used twice. */
  ghost predicate Traces(origins: seq<Provenance>, from: seq<byte>, to: seq<byte>) {
    && |origins| == |to|
    && (forall i | 0 <= i < |to| && origins[i].FromPeer? ::
          origins[i].index < |from| && to[i] == from[origins[i].index])
    && (forall i, j | 0 <= i < j < |to| && origins[i].FromPeer? && origins[j].FromPeer? ::
          origins[i].index < origins[j].index)
  }

  /** The octets from `n` to `end` of a buffer of which `size` octets have been received, behind `base`. */
  function OfBuffer(base: nat, n: nat, end: nat, size: nat): (origins: seq<Provenance>)
    requires n <= end
    ensures |origins| == end - n
  {
    seq(end - n, i requires 0 <= i => if n + i < size then FromPeer(base + n + i) else NeverReceived)
  }

  function Prefix<T>(xs: seq<T>, n: nat): seq<T> {
    if n <= |xs| then xs[..n] else xs
  }

  function Suffix<T>(xs: seq<T>, n: nat): seq<T> {
    if n <= |xs| then xs[n..] else []
  }

  // ---------- one event ----------

  /** The event reads octets that are for this direction. */
  predicate ReadsFor(v: View, a: Act, d: Direction) {
    && v.state == Connected && a.Deliver? && a.kind == Origin(d)
    && Write !in a.flags && Closed !in a.flags && Error !in a.flags && a.env.recv.Data?
  }

  /** It does while others are scheduled, and the send takes some of those but not all. */
  predicate Overwrites(v: View, a: Act, d: Direction) {
    ReadsFor(v, a, d) && a.env.sent.Wrote? && a.env.sent.count < |Scheduled(v, d)|
  }

  /** The origins of what has gone, followed by what is scheduled, after the event. What is scheduled is
      replaced by octets at the same places of the buffer that was read into. */
  function OriginsAfter(v: View, a: Act, d: Direction, origins: seq<Provenance>): seq<Provenance> {
    if !ReadsFor(v, a, d) then origins
    else
      var base, size, s := |Came(v, d)|, a.env.recv.buffer.size, |Scheduled(v, d)|;
      if s == 0 then origins + OfBuffer(base, 0, size, size)
      else if Overwrites(v, a, d) then
        var n := a.env.sent.count;
        Prefix(origins, |Gone(v, d)| + n) + OfBuffer(base, n, s, size)
      else origins
  }

  function Through(v: View, d: Direction): seq<byte> { Gone(v, d) + Scheduled(v, d) }

  lemma TracesMore(origins: seq<Provenance>, from: seq<byte>, to: seq<byte>, data: seq<byte>)
    requires Traces(origins, from, to)
    ensures Traces(origins, from + data, to)
    ensures Traces(origins + OfBuffer(|from|, 0, |data|, |data|), from + data, to + data)
  {
  }

  lemma TracesOver(origins: seq<Provenance>, from: seq<byte>, to: seq<byte>, block: seq<byte>, size: nat, k: nat,
                   n: nat, s: nat)
    requires Traces(origins, from, to) && k + n <= |to| && n <= s <= |block| && size <= |block|
    ensures Traces(Prefix(origins, k + n) + OfBuffer(|from|, n, s, size), from + block[..size],
                   to[..k + n] + block[n..s])
  {
  }

  /** Reading while others are scheduled: none of them, all of them, or some of them have gone. */
  lemma OverSent(v: View, d: Direction, buffer: RecvBuffer, sent: Sent)
    requires buffer.Valid() && Scheduled(v, d) != [] && |Scheduled(v, d)| <= BUFFER_SIZE
    ensures var r, out, n := SocketSend(v, d, Some(buffer), sent), Scheduled(v, d), Taken(sent, |Scheduled(v, d)|);
      r.outcome == Keep ==>
        && sent != SendFailed && Gone(r.view, d) == Gone(v, d) + out[..n]
        && Scheduled(r.view, d) ==
             (if sent == WouldBlock then out else if n == |out| then [] else buffer.block[n..|out|])
  {
  }

  lemma FreshTraced(v: View, d: Direction, buffer: RecvBuffer, sent: Sent)
    requires buffer.Valid() && Scheduled(v, d) == []
    ensures var r := SocketSend(WithReceived(v, d, buffer.Received()), d, Some(buffer), sent);
      r.outcome == Keep ==>
        Came(r.view, d) == Came(v, d) + buffer.Received() && Through(r.view, d) == Through(v, d) + buffer.Received()
  {
    hide SocketSend;
    var data, v', m := buffer.Received(), WithReceived(v, d, buffer.Received()), Taken(sent, buffer.size);
    SendTouches(v', d, Some(buffer), sent);
    FreshSent(v', d, buffer, sent);
    assert data[..m] + data[m..] == data && Gone(v, d) + [] == Gone(v, d);
  }

  /** What goes through when octets are read over scheduled ones. */
  lemma OverTraced(v: View, d: Direction, buffer: RecvBuffer, sent: Sent)
    requires buffer.Valid() && Scheduled(v, d) != [] && |Scheduled(v, d)| <= BUFFER_SIZE
    ensures var r, s := SocketSend(WithReceived(v, d, buffer.Received()), d, Some(buffer), sent), |Scheduled(v, d)|;
      r.outcome == Keep ==>
        && Came(r.view, d) == Came(v, d) + buffer.Received()
        && Through(r.view, d) ==
             if sent.Wrote? && sent.count < s then
               Through(v, d)[..|Gone(v, d)| + sent.count] + buffer.block[sent.count..s]
             else Through(v, d)
  {
    hide SocketSend;
    var v', out := WithReceived(v, d, buffer.Received()), Scheduled(v, d);
    SendTouches(v', d, Some(buffer), sent);
    OverSent(v', d, buffer, sent);
    var gone, n := Gone(v, d), Taken(sent, |out|);
    assert gone == Gone(v', d) && out == Scheduled(v', d);
    assert out[..|out|] == out && out[..0] == [] && gone + [] == gone && gone + out + [] == gone + out;
    assert (gone + out)[..|gone| + n] == gone + out[..n];
  }

  lemma ReadTraced(v: View, a: Act, d: Direction, origins: seq<Provenance>)
    requires |v.clientBuffer| <= BUFFER_SIZE && |v.remoteBuffer| <= BUFFER_SIZE
    requires ReadsFor(v, a, d) && a.env.recv.buffer.Valid() && Traces(origins, Came(v, d), Through(v, d))
    ensures
      var buffer := a.env.recv.buffer;
      var r := SocketSend(WithReceived(v, d, buffer.Received()), d, Some(buffer), a.env.sent);
      r.outcome == Keep ==> Traces(OriginsAfter(v, a, d, origins), Came(r.view, d), Through(r.view, d))
  {
    hide SocketSend, Traces, OfBuffer, Through;
    var buffer := a.env.recv.buffer;
    TracesMore(origins, Came(v, d), Through(v, d), buffer.Received());
    if Scheduled(v, d) == [] {
      FreshTraced(v, d, buffer, a.env.sent);
    } else {
      OverTraced(v, d, buffer, a.env.sent);
      if Overwrites(v, a, d) {
        ThroughLength(v, d);
        TracesOver(origins, Came(v, d), Through(v, d), buffer.block, buffer.size, |Gone(v, d)|, a.env.sent.count,
                   |Scheduled(v, d)|);
      }
    }
  }

  lemma ThroughLength(v: View, d: Direction)
    ensures |Through(v, d)| == |Gone(v, d)| + |Scheduled(v, d)|
  {
  }

  lemma FlushTraced(v: View, d: Direction, x: Direction, sent: Sent)
    requires Scheduled(v, x) != []
    ensures var r := SocketSend(v, x, None, sent);
      r.outcome == Keep ==> Came(r.view, d) == Came(v, d) && Through(r.view, d) == Through(v, d)
  {
    hide SocketSend;
    FlushSent(v, x, sent);
    SendTouches(v, x, None, sent);
  }

  lemma OtherTraced(v: View, d: Direction, buffer: RecvBuffer, sent: Sent)
    requires buffer.Valid()
    ensures var r := SocketSend(WithReceived(v, Opposite(d), buffer.Received()), Opposite(d), Some(buffer), sent);
      Came(r.view, d) == Came(v, d) && Through(r.view, d) == Through(v, d)
  {
    hide SocketSend;
    SendTouches(WithReceived(v, Opposite(d), buffer.Received()), Opposite(d), Some(buffer), sent);
  }

  lemma StepTraced(p: Params, w: World, a: Act, d: Direction, origins: seq<Provenance>)
    requires Inv(p, w) && Enabled(w, a) && w.view.state == Connected && Next(p, w, a).outcome == Keep
    requires Traces(origins, Came(w.view, d), Through(w.view, d))
    ensures var v := Next(p, w, a).view; Traces(OriginsAfter(w.view, a, d, origins), Came(v, d), Through(v, d))
  {
    hide SocketSend, Traces, Authorised, TakenFrom, Through, OriginsAfter;
    NoChange(w.view, a, d, origins);
    if a.Deliver? {
      if Write in a.flags {
        FlushTraced(w.view, d, if a.kind == ClientSock then ToClient else ToRemote, a.env.sent);
      } else if a.kind == Origin(d) {
        ReadTraced(w.view, a, d, origins);
      } else {
        OtherTraced(w.view, d, a.env.recv.buffer, a.env.sent);
      }
    }
  }

  lemma NoChange(v: View, a: Act, d: Direction, origins: seq<Provenance>)
    ensures !ReadsFor(v, a, d) ==> OriginsAfter(v, a, d, origins) == origins
  {
  }

  // ---------- runs ----------

  /** The origins of what has gone through in one direction, followed by what is scheduled, on a run. */
  ghost function OriginsOn(p: Params, acts: seq<Act>, d: Direction): seq<Provenance>
    requires Run(p, acts).Some?
    decreases |acts|
  {
    if acts == [] then []
    else
      var before := acts[..|acts| - 1];
      PrefixOfRun(p, acts);
      OriginsAfter(Run(p, before).value.view, acts[|acts| - 1], d, OriginsOn(p, before, d))
  }

  lemma NothingYet(p: Params, w: World, d: Direction)
    requires Inv(p, w) && w.outcome == Keep && w.view.state != Connected
    ensures Came(w.view, d) == [] && Through(w.view, d) == []
  {
    hide Authorised, TakenFrom;
  }

  lemma NothingAtFirst(p: Params, w: World, a: Act, d: Direction)
    requires Inv(p, w) && Enabled(w, a) && w.view.state != Connected
    requires Next(p, w, a).view.state == Connected && Next(p, w, a).outcome == Keep
    ensures var v := Next(p, w, a).view; Came(v, d) == [] && Through(v, d) == []
  {
    hide Authorised, TakenFrom, ProcessClient, ProcessClientEvent, ProcessDnsEvent, ProcessUdpEvent, TryConnectNext,
      SocketSend;
    ConnectedExactly(p, w, a);
  }

  /** The same for any event, whether or not the session is a relay yet. */
  lemma AnyStepTraced(p: Params, w: World, a: Act, d: Direction, origins: seq<Provenance>)
    requires Inv(p, w) && Enabled(w, a) && Next(p, w, a).outcome == Keep
    requires Traces(origins, Came(w.view, d), Through(w.view, d))
    ensures var v := Next(p, w, a).view; Traces(OriginsAfter(w.view, a, d, origins), Came(v, d), Through(v, d))
  {
    hide Next, Inv, Through, Came;
    if w.view.state == Connected {
      StepTraced(p, w, a, d, origins);
    } else {
      NoChange(w.view, a, d, origins);
      NothingYet(p, w, d);
      StepKeeps(p, w, a);
      if Next(p, w, a).view.state == Connected {
        NothingAtFirst(p, w, a, d);
      } else {
        NothingYet(p, Next(p, w, a), d);
      }
    }
  }

  /** On every run that the session survives, what has gone to one end, followed by what is scheduled for it,
      consists of octets of the other end's stream, each at most once and in their order, and of octets
      that were never received. */
  lemma {:induction false} OriginsExact(p: Params, acts: seq<Act>, d: Direction)
    requires Run(p, acts).Some? && Run(p, acts).value.outcome == Keep
    ensures var v := Run(p, acts).value.view; Traces(OriginsOn(p, acts, d), Came(v, d), Through(v, d))
    decreases |acts|
  {
    hide Next, Inv, Traces, Through, Came, OriginsAfter;
    if acts == [] {
      NothingAtAll(d);
    } else {
      var before := acts[..|acts| - 1];
      PrefixOfRun(p, acts);
      OriginsExact(p, before, d);
      RunKeeps(p, before);
      AnyStepTraced(p, Run(p, before).value, acts[|acts| - 1], d, OriginsOn(p, before, d));
    }
  }

  lemma NothingAtAll(d: Direction)
    ensures Came(Initial(), d) == [] && Traces([], Came(Initial(), d), Through(Initial(), d))
  {
  }

  // ---------- counting ----------

  function FromPeerCount(origins: seq<Provenance>): nat {
    if origins == [] then 0
    else FromPeerCount(origins[..|origins| - 1]) + if origins[|origins| - 1].FromPeer? then 1 else 0
  }

  function NeverReceivedCount(origins: seq<Provenance>): nat {
    if origins == [] then 0
    else NeverReceivedCount(origins[..|origins| - 1]) + if origins[|origins| - 1].NeverReceived? then 1 else 0
  }

  lemma {:induction false} CountsAddUp(origins: seq<Provenance>)
    ensures FromPeerCount(origins) + NeverReceivedCount(origins) == |origins|
  {
    if origins != [] {
      CountsAddUp(origins[..|origins| - 1]);
    }
  }

  lemma {:induction false} CountConcat(x: seq<Provenance>, y: seq<Provenance>)
    ensures FromPeerCount(x + y) == FromPeerCount(x) + FromPeerCount(y)
    decreases |y|
  {
    if y == [] {
      assert x + y == x;
    } else {
      CountConcat(x, y[..|y| - 1]);
      assert (x + y)[..|x + y| - 1] == x + y[..|y| - 1];
    }
  }

  function Least(x: nat, y: nat): nat { if x < y then x else y }

  /** How many of the octets from `n` to `end` are among the first `size`. */
  function ReceivedPart(n: nat, end: nat, size: nat): nat {
    if Least(end, size) > n then Least(end, size) - n else 0
  }

  lemma {:induction false} CountOfBuffer(base: nat, n: nat, end: nat, size: nat)
    requires n <= end
    ensures FromPeerCount(OfBuffer(base, n, end, size)) == ReceivedPart(n, end, size)
    decreases end
  {
    if n < end {
      CountOfBuffer(base, n, end - 1, size);
      var o := OfBuffer(base, n, end, size);
      assert o[..|o| - 1] == OfBuffer(base, n, end - 1, size);
    }
  }

  /** How many octets of the peer's stream the event loses: those it reads over scheduled ones, except for
      what it puts in their place, and those in whose place it puts them. */
  function LostBy(v: View, a: Act, d: Direction, origins: seq<Provenance>): int {
    if !ReadsFor(v, a, d) || Scheduled(v, d) == [] then 0
    else
      var size := a.env.recv.buffer.size;
      if Overwrites(v, a, d) then
        FromPeerCount(Suffix(origins, |Gone(v, d)| + a.env.sent.count))
        + size - ReceivedPart(a.env.sent.count, |Scheduled(v, d)|, size)
      else size
  }

  /** And on a run. */
  ghost function LostOn(p: Params, acts: seq<Act>, d: Direction): int
    requires Run(p, acts).Some?
    decreases |acts|
  {
    if acts == [] then 0
    else
      var before := acts[..|acts| - 1];
      PrefixOfRun(p, acts);
      LostOn(p, before, d) + LostBy(Run(p, before).value.view, acts[|acts| - 1], d, OriginsOn(p, before, d))
  }

  lemma StepLoses(v: View, a: Act, d: Direction, origins: seq<Provenance>)
    ensures FromPeerCount(OriginsAfter(v, a, d, origins)) + LostBy(v, a, d, origins)
         == FromPeerCount(origins) + if ReadsFor(v, a, d) then a.env.recv.buffer.size else 0
  {
    hide FromPeerCount, OfBuffer;
    if ReadsFor(v, a, d) {
      var base, size, s := |Came(v, d)|, a.env.recv.buffer.size, |Scheduled(v, d)|;
      if s == 0 {
        CountOfBuffer(base, 0, size, size);
        CountConcat(origins, OfBuffer(base, 0, size, size));
      } else if Overwrites(v, a, d) {
        var n, k := a.env.sent.count, |Gone(v, d)| + a.env.sent.count;
        CountOfBuffer(base, n, s, size);
        CountConcat(Prefix(origins, k), OfBuffer(base, n, s, size));
        CountConcat(Prefix(origins, k), Suffix(origins, k));
        assert Prefix(origins, k) + Suffix(origins, k) == origins;
      }
    }
  }

  lemma CameGrows(p: Params, w: World, a: Act, d: Direction)
    requires Inv(p, w) && Enabled(w, a) && Next(p, w, a).outcome == Keep
    ensures |Came(Next(p, w, a).view, d)|
         == |Came(w.view, d)| + if ReadsFor(w.view, a, d) then a.env.recv.buffer.size else 0
  {
    hide Next, Inv, Came;
    if w.view.state == Connected {
      RelayCameGrows(p, w, a, d);
    } else {
      NothingYet(p, w, d);
      StepKeeps(p, w, a);
      if Next(p, w, a).view.state == Connected {
        NothingAtFirst(p, w, a, d);
      } else {
        NothingYet(p, Next(p, w, a), d);
      }
    }
  }

  lemma RelayCameGrows(p: Params, w: World, a: Act, d: Direction)
    requires Inv(p, w) && Enabled(w, a) && w.view.state == Connected && Next(p, w, a).outcome == Keep
    ensures |Came(Next(p, w, a).view, d)|
         == |Came(w.view, d)| + if ReadsFor(w.view, a, d) then a.env.recv.buffer.size else 0
  {
    hide SocketSend, Authorised, TakenFrom;
    forall v: View, x, buffer: Option<RecvBuffer>, sent | buffer.Some? ==> buffer.value.Valid()
      ensures Came(SocketSend(v, x, buffer, sent).view, d) == Came(v, d)
    {
      SendTouches(v, x, buffer, sent);
    }
  }

  /** On every run that the session survives, each octet that one end has sent has gone through, is
      scheduled, or has been lost by an event, and the counts say how many: what has gone through or is
      scheduled holds all octets but the lost ones, and as many others as were never received. */
  lemma LossesExact(p: Params, acts: seq<Act>, d: Direction)
    requires Run(p, acts).Some? && Run(p, acts).value.outcome == Keep
    ensures var v, origins := Run(p, acts).value.view, OriginsOn(p, acts, d);
      && FromPeerCount(origins) + LostOn(p, acts, d) == |Came(v, d)|
      && ShortfallIn(v, d) == LostOn(p, acts, d) - NeverReceivedCount(origins)
  {
    hide Run, Traces, FromPeerCount, NeverReceivedCount;
    CountsOnRun(p, acts, d);
    OriginsExact(p, acts, d);
    CountsAddUp(OriginsOn(p, acts, d));
    SameLength(OriginsOn(p, acts, d), Run(p, acts).value.view, d);
  }

  lemma SameLength(origins: seq<Provenance>, v: View, d: Direction)
    requires Traces(origins, Came(v, d), Through(v, d))
    ensures |origins| == |Gone(v, d)| + |Scheduled(v, d)|
  {
  }

  lemma {:induction false} CountsOnRun(p: Params, acts: seq<Act>, d: Direction)
    requires Run(p, acts).Some? && Run(p, acts).value.outcome == Keep
    ensures FromPeerCount(OriginsOn(p, acts, d)) + LostOn(p, acts, d) == |Came(Run(p, acts).value.view, d)|
    decreases |acts|
  {
    hide Next, Inv, Came, OriginsAfter, LostBy, ReadsFor;
    if acts == [] {
      NothingAtAll(d);
    } else {
      var before, a := acts[..|acts| - 1], acts[|acts| - 1];
      PrefixOfRun(p, acts);
      CountsOnRun(p, before, d);
      RunKeeps(p, before);
      StepLoses(Run(p, before).value.view, a, d, OriginsOn(p, before, d));
      CameGrows(p, Run(p, before).value, a, d);
    }
  }

  // ---------- without overwriting ----------

  /** No event of the run overwrites scheduled octets. */
  ghost predicate NeverOverwrites(p: Params, acts: seq<Act>, d: Direction)
    requires Run(p, acts).Some?
    decreases |acts|
  {
    acts != [] ==>
      var before := acts[..|acts| - 1];
      PrefixOfRun(p, acts);
      NeverOverwrites(p, before, d) && !Overwrites(Run(p, before).value.view, acts[|acts| - 1], d)
  }

  /** The pieces that were read for one direction while nothing was scheduled for it. */
  ghost function PiecesOn(p: Params, acts: seq<Act>, d: Direction): seq<byte>
    requires Run(p, acts).Some?
    decreases |acts|
  {
    if acts == [] then []
    else
      var before, a := acts[..|acts| - 1], acts[|acts| - 1];
      PrefixOfRun(p, acts);
      var v := Run(p, before).value.view;
      PiecesOn(p, before, d)
      + if ReadsFor(v, a, d) && Scheduled(v, d) == [] && a.env.recv.buffer.Valid() then a.env.recv.buffer.Received()
        else []
  }

  lemma StepPieces(p: Params, w: World, a: Act, d: Direction)
    requires Inv(p, w) && Enabled(w, a) && w.view.state == Connected && Next(p, w, a).outcome == Keep
    requires !Overwrites(w.view, a, d)
    ensures Through(Next(p, w, a).view, d) == Through(w.view, d)
      + if ReadsFor(w.view, a, d) && Scheduled(w.view, d) == [] && a.env.recv.buffer.Valid()
        then a.env.recv.buffer.Received() else []
  {
    hide SocketSend, Authorised, TakenFrom, Through;
    assert Through(w.view, d) + [] == Through(w.view, d);
    if a.Deliver? {
      if Write in a.flags {
        FlushTraced(w.view, d, if a.kind == ClientSock then ToClient else ToRemote, a.env.sent);
      } else if a.kind == Origin(d) {
        if Scheduled(w.view, d) == [] {
          FreshTraced(w.view, d, a.env.recv.buffer, a.env.sent);
        } else {
          OverTraced(w.view, d, a.env.recv.buffer, a.env.sent);
        }
      } else {
        OtherTraced(w.view, d, a.env.recv.buffer, a.env.sent);
      }
    }
  }

  lemma AnyStepPieces(p: Params, w: World, a: Act, d: Direction)
    requires Inv(p, w) && Enabled(w, a) && Next(p, w, a).outcome == Keep && !Overwrites(w.view, a, d)
    ensures Through(Next(p, w, a).view, d) == Through(w.view, d)
      + if ReadsFor(w.view, a, d) && Scheduled(w.view, d) == [] && a.env.recv.buffer.Valid()
        then a.env.recv.buffer.Received() else []
  {
    hide Next, Inv, Through;
    if w.view.state == Connected {
      StepPieces(p, w, a, d);
    } else {
      NothingYet(p, w, d);
      StepKeeps(p, w, a);
      if Next(p, w, a).view.state == Connected {
        NothingAtFirst(p, w, a, d);
      } else {
        NothingYet(p, Next(p, w, a), d);
      }
    }
  }

  /** On every run that the session survives and on which nothing scheduled is overwritten, what has gone to
      one end, followed by what is scheduled for it, is what the other end has sent with exactly the pieces
      taken out that were read while octets were scheduled. */
  lemma {:induction false} PiecesExact(p: Params, acts: seq<Act>, d: Direction)
    requires Run(p, acts).Some? && Run(p, acts).value.outcome == Keep && NeverOverwrites(p, acts, d)
    ensures Through(Run(p, acts).value.view, d) == PiecesOn(p, acts, d)
    decreases |acts|
  {
    hide Next, Inv, Overwrites, ReadsFor;
    if acts != [] {
      var before, a := acts[..|acts| - 1], acts[|acts| - 1];
      PrefixOfRun(p, acts);
      PiecesExact(p, before, d);
      RunKeeps(p, before);
      AnyStepPieces(p, Run(p, before).value, a, d);
    }
  }

  /** An event schedules octets that were never received if and only if it overwrites more scheduled octets
      than it has received. */
  lemma NeverReceivedExactly(v: View, a: Act, d: Direction, origins: seq<Provenance>)
    requires |origins| == |Gone(v, d)| + |Scheduled(v, d)| && NeverReceived !in origins
    ensures NeverReceived in OriginsAfter(v, a, d, origins) <==>
      Overwrites(v, a, d) && a.env.recv.buffer.size < |Scheduled(v, d)|
  {
    hide Gone, Scheduled;
    if Overwrites(v, a, d) && a.env.recv.buffer.size < |Scheduled(v, d)| {
      var after := OriginsAfter(v, a, d, origins);
      assert after[|after| - 1] == NeverReceived;
    }
  }

  /** No event of the run overwrites more scheduled octets than it has received. */
  ghost predicate NeverShort(p: Params, acts: seq<Act>, d: Direction)
    requires Run(p, acts).Some?
    decreases |acts|
  {
    acts != [] ==>
      var before, a := acts[..|acts| - 1], acts[|acts| - 1];
      PrefixOfRun(p, acts);
      var v := Run(p, before).value.view;
      NeverShort(p, before, d) && !(Overwrites(v, a, d) && a.env.recv.buffer.size < |Scheduled(v, d)|)
  }

  /** At no point of the run has an octet that was never received gone through or been scheduled. */
  ghost predicate AlwaysReceived(p: Params, acts: seq<Act>, d: Direction)
    requires Run(p, acts).Some?
    decreases |acts|
  {
    && NeverReceived !in OriginsOn(p, acts, d)
    && (acts != [] ==>
          var before := acts[..|acts| - 1];
          PrefixOfRun(p, acts);
          AlwaysReceived(p, before, d))
  }

  /** On every run that the session survives, only octets that were received go through or are scheduled if
      and only if no event overwrites more scheduled octets than it has received. */
  lemma {:induction false} NeverReceivedOnRun(p: Params, acts: seq<Act>, d: Direction)
    requires Run(p, acts).Some? && Run(p, acts).value.outcome == Keep
    ensures AlwaysReceived(p, acts, d) <==> NeverShort(p, acts, d)
    decreases |acts|
  {
    hide Next, Overwrites, OriginsAfter, Traces, Scheduled, Gone;
    if acts != [] {
      var before, a := acts[..|acts| - 1], acts[|acts| - 1];
      PrefixOfRun(p, acts);
      NeverReceivedOnRun(p, before, d);
      OriginsExact(p, before, d);
      var v, origins := Run(p, before).value.view, OriginsOn(p, before, d);
      SameLength(origins, v, d);
      if NeverReceived !in origins {
        NeverReceivedExactly(v, a, d, origins);
      }
    }
  }
}
