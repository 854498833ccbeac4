/** A run on which a relay schedules octets for its client that nobody has sent. */
module ForeignOctets {
  import opened Octets
  import opened SessionSpec
  import opened SessionRuns
  import opened SampleRuns
  import opened Relay
  import opened RelayLoss
  import opened OctetOrigins

  /** The first buffer holds four octets that matter, the second one nine times over. */
  function Four(): (data: Block)
    ensures data[..4] == [5, 1, 0, 1]
  {
    [5, 1, 0, 1] + seq(BUFFER_SIZE - 4, _ => 0)
  }

  function Nines(): (data: Block)
    ensures data[..1] == [9] && data[1..4] == [9, 9, 9]
  {
    seq(BUFFER_SIZE, _ => 9)
  }

  function Reads(data: Block, size: nat, sent: Sent): Env {
    Env(Data(RecvBuffer(data, size)), sent, 2, 10, true, 0, NoResponse, true, true, true, true, 0)
  }

  /** What holds of the octets from the remote end. */
  ghost predicate Holds(w: World, came: seq<byte>, gone: seq<byte>, scheduled: seq<byte>) {
    && w.outcome == Keep && w.view.state == Connected && w.view.remote.Some?
    && Came(w.view, ToClient) == came && Gone(w.view, ToClient) == gone && w.view.clientBuffer == scheduled
  }

  /** The first four octets of the remote end have gone through or are scheduled. */
  ghost predicate FirstFour(p: Params, acts: seq<Act>)
    requires Run(p, acts).Some?
  {
    OriginsOn(p, acts, ToClient) == OfBuffer(0, 0, 4, 4)
  }

  lemma OriginsNext(p: Params, acts: seq<Act>, a: Act, d: Direction)
    requires Run(p, acts).Some? && Run(p, acts + [a]).Some?
    ensures OriginsOn(p, acts + [a], d) == OriginsAfter(Run(p, acts).value.view, a, d, OriginsOn(p, acts, d))
    ensures LostOn(p, acts + [a], d)
         == LostOn(p, acts, d) + LostBy(Run(p, acts).value.view, a, d, OriginsOn(p, acts, d))
  {
    hide Run, OriginsAfter, LostBy;
    assert (acts + [a])[..|acts|] == acts;
  }

  lemma NoOrigins(p: Params, acts: seq<Act>)
    requires Run(p, acts).Some? && Idle(Run(p, acts).value)
    ensures OriginsOn(p, acts, ToClient) == []
  {
    hide Run;
    OriginsExact(p, acts, ToClient);
  }

  lemma OriginsStay(p: Params, acts: seq<Act>, a: Act)
    requires Run(p, acts).Some? && !ReadsFor(Run(p, acts).value.view, a, ToClient)
    ensures Run(p, acts + [a]).Some? ==> OriginsOn(p, acts + [a], ToClient) == OriginsOn(p, acts, ToClient)
  {
    hide Run, ReadsFor;
    NoChange(Run(p, acts).value.view, a, ToClient, OriginsOn(p, acts, ToClient));
    if Run(p, acts + [a]).Some? {
      OriginsNext(p, acts, a, ToClient);
    }
  }

  /** The client does not take the four octets. */
  lemma FourBlock(p: Params) returns (acts: seq<Act>)
    requires p.Method() == NoAuth
    ensures Run(p, acts).Some? && Holds(Run(p, acts).value, [5, 1, 0, 1], [], [5, 1, 0, 1])
    ensures FirstFour(p, acts)
    ensures var w := Run(p, acts).value;
      w.view.remoteBuffer == [] && ClientSock in w.polled && w.polled[ClientSock] == LISTENING
  {
    hide Run, Authorised, TakenFrom;
    var before := Connects(p);
    RunKeeps(p, before);
    NoOrigins(p, before);
    var none: seq<byte>, nothing: seq<Provenance> := [], [];
    assert none + [5, 1, 0, 1] == [5, 1, 0, 1] && nothing + OfBuffer(0, 0, 4, 4) == OfBuffer(0, 0, 4, 4);
    acts := Happened(p, before, RemoteSock, Read, Reads(Four(), 4, WouldBlock));
    OriginsNext(p, before, Deliver(RemoteSock, {Read}, Reads(Four(), 4, WouldBlock)), ToClient);
  }

  /** By an event of the same poll the remote end becomes blocked as well. */
  lemma BothWays(p: Params) returns (acts: seq<Act>)
    requires p.Method() == NoAuth
    ensures Run(p, acts).Some? && Holds(Run(p, acts).value, [5, 1, 0, 1], [], [5, 1, 0, 1])
    ensures FirstFour(p, acts)
    ensures var w := Run(p, acts).value;
      |w.view.remoteBuffer| == 1 && RemoteSock in w.polled && w.polled[RemoteSock] == SENDING
  {
    hide Run, Authorised, TakenFrom;
    var before := FourBlock(p);
    RunKeeps(p, before);
    var a := Deliver(ClientSock, {Read}, Reads(Nines(), 1, WouldBlock));
    OriginsStay(p, before, a);
    var between := Happened(p, before, ClientSock, Read, a.env);
    RunKeeps(p, between);
    OriginsStay(p, between, Poll);
    acts := Polled(p, between);
  }

  /** The remote end is written, and both ends are read again. */
  lemma ReadAgain(p: Params) returns (acts: seq<Act>)
    requires p.Method() == NoAuth
    ensures Run(p, acts).Some? && Holds(Run(p, acts).value, [5, 1, 0, 1], [], [5, 1, 0, 1])
    ensures FirstFour(p, acts)
    ensures var w := Run(p, acts).value; RemoteSock in w.polled && Read in w.polled[RemoteSock]
  {
    hide Run, Authorised, TakenFrom;
    var before := BothWays(p);
    RunKeeps(p, before);
    var a := Deliver(RemoteSock, {Write}, Reads(Nines(), 1, Wrote(1)));
    OriginsStay(p, before, a);
    var between := Happened(p, before, RemoteSock, Write, a.env);
    OriginsStay(p, between, Poll);
    acts := Polled(p, between);
  }

  /** The remote end has sent 5, 1, 0, 1 and 9. Only the first octet has gone to the client, and what is
      scheduled for it are three octets that were never received: the other four are lost. */
  lemma OctetsNeverReceived(p: Params) returns (acts: seq<Act>)
    requires p.Method() == NoAuth
    ensures Run(p, acts).Some? && Holds(Run(p, acts).value, [5, 1, 0, 1, 9], [5], [9, 9, 9])
    ensures ShortfallIn(Run(p, acts).value.view, ToClient) == 1
    ensures NeverReceivedCount(OriginsOn(p, acts, ToClient)) == 3 && LostOn(p, acts, ToClient) == 4
  {
    hide Run, Authorised, TakenFrom, OriginsOn, LostOn, OriginsAfter;
    var before := ReadAgain(p);
    RunKeeps(p, before);
    var none: seq<byte> := [];
    assert [5, 1, 0, 1] + [9] == [5, 1, 0, 1, 9] && none + [5] == [5] && [5, 1, 0, 1][..1] == [5];
    var a := Deliver(RemoteSock, {Read}, Reads(Nines(), 1, Wrote(1)));
    acts := Happened(p, before, RemoteSock, Read, a.env);
    OriginsNext(p, before, a, ToClient);
    ThreeForeign(Run(p, before).value.view, a, OriginsOn(p, before, ToClient));
    LossesExact(p, acts, ToClient);
  }

  lemma ThreeForeign(v: View, a: Act, origins: seq<Provenance>)
    requires Overwrites(v, a, ToClient) && Gone(v, ToClient) == [] && |Scheduled(v, ToClient)| == 4
    requires a.env.sent.count == 1 && a.env.recv.buffer.size == 1 && origins == OfBuffer(0, 0, 4, 4)
    ensures NeverReceivedCount(OriginsAfter(v, a, ToClient, origins)) == 3
  {
    hide FromPeerCount, NeverReceivedCount;
    var base := |Came(v, ToClient)|;
    var after := OriginsAfter(v, a, ToClient, origins);
    assert after == [FromPeer(0)] + OfBuffer(base, 1, 4, 1);
    CountOfBuffer(base, 1, 4, 1);
    CountConcat([FromPeer(0)], OfBuffer(base, 1, 4, 1));
    CountsAddUp(after);
    OneFromPeer();
  }

  lemma OneFromPeer()
    ensures FromPeerCount([FromPeer(0)]) == 1
  {
    assert [FromPeer(0)][..0] == [];
  }
}
