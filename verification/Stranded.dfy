/** What becomes of a session whose first connection attempt could not even be started. */
module Stranded {
  import opened Octets
  import opened DnsSockets
  import opened SessionSpec
  import opened SessionRuns
  import opened SessionSafety
  import opened SampleRuns

  /** The session counts as connecting, but its remote socket is not waited for. */
  predicate IsStranded(v: View) {
    v.state == ConnectingRemote && RemoteSock !in v.regs
  }

  /** Nothing but an event of its client's socket can happen to such a session, and that ends it. */
  lemma OnlyTheClientEndsIt(p: Params, w: World, a: Act)
    requires Inv(p, w) && Enabled(w, a) && IsStranded(w.view)
    ensures if a == Poll then Next(p, w, a).view == w.view && Next(p, w, a).outcome == Keep
            else a.kind == ClientSock && Next(p, w, a).outcome == Drop
  {
    hide Authorised, TakenFrom, SocketSend;
  }

  // ---------- when it happens ----------

  /** Whether the connection attempt that made the session a connecting one could be started. */
  ghost predicate FirstStarted(p: Params, acts: seq<Act>)
    requires Run(p, acts).Some?
    decreases |acts|
  {
    acts != [] &&
    var before, a := acts[..|acts| - 1], acts[|acts| - 1];
    PrefixOfRun(p, acts);
    if Run(p, before).value.view.state != ConnectingRemote && Run(p, acts).value.view.state == ConnectingRemote
    then a.Deliver? && a.env.connectStarted
    else FirstStarted(p, before)
  }

  lemma ConnectRegisters(v: View, addresses: seq<Address>, e: Env)
    requires RemoteSock !in v.regs && addresses != []
    ensures RemoteSock in ConnectRemote(v, addresses, e).regs <==> e.connectStarted
  {
  }

  lemma CommandRegisters(v: View, addresses: seq<Address>, e: Env)
    requires RemoteSock !in v.regs && v.state != ConnectingRemote
    ensures var r := DoCommand(v, addresses, e).view;
      r.state == ConnectingRemote ==> (RemoteSock in r.regs <==> e.connectStarted)
  {
    hide ConnectRemote;
    if addresses != [] {
      ConnectRegisters(v.(log := v.log.(commands := v.log.commands + 1)), addresses, e);
    }
  }

  lemma RequestRegisters(p: Params, v: View, buffer: RecvBuffer, e: Env)
    requires buffer.Valid() && RemoteSock !in v.regs && v.state != ConnectingRemote
    ensures var r := CheckCommand(p, v, buffer, e).view;
      r.state == ConnectingRemote ==> (RemoteSock in r.regs <==> e.connectStarted)
  {
    hide DoCommand, QueryOctets, AddressOf, DomainPort;
    var v1 := v.(command := CommandOf(buffer.block), log := v.log.(request := Some(buffer)));
    CommandRegisters(v1, [AddressOf(buffer.block)], e);
  }

  lemma ResponseRegisters(v: View, i: nat, flags: Interest, e: Env)
    requires RemoteSock !in v.regs && v.state != ConnectingRemote
    ensures var r := ProcessDnsEvent(v, i, flags, e).view;
      r.state == ConnectingRemote ==> (RemoteSock in r.regs <==> e.connectStarted)
  {
    hide DoCommand, LookUp;
    if i < |v.dns| && e.response.Received? {
      var l := LookUp(e.response.octets, v.dns[i]);
      if l.Found? {
        var log := v.log.(response := Some(e.response.octets));
        CommandRegisters(v.(regs := Remove(v.regs, DnsSock(i)), log := log), l.addresses, e);
      }
    }
  }

  /** The event that starts the first attempt registers the remote socket if that succeeds. */
  lemma EntersConnecting(p: Params, w: World, a: Act)
    requires Inv(p, w) && Enabled(w, a) && w.view.state != ConnectingRemote
    requires Next(p, w, a).view.state == ConnectingRemote
    ensures a.Deliver? && (RemoteSock in Next(p, w, a).view.regs <==> a.env.connectStarted)
  {
    hide CheckCommand, ProcessDnsEvent, SocketSend, Credentials, Methods, Authorised, TakenFrom;
    if a == Poll {
      PollStays(p, w);
    } else if Rank(w.view.state) >= 5 {
      StepForward(p, w, a);
    } else {
      if a.env.recv.Data? {
        RequestRegisters(p, w.view, a.env.recv.buffer, a.env);
      }
      if a.kind.DnsSock? {
        ResponseRegisters(w.view, a.kind.index, a.flags, a.env);
      }
    }
  }

  lemma StaysConnecting(p: Params, w: World, a: Act)
    requires Inv(p, w) && Enabled(w, a) && w.view.state == ConnectingRemote
    requires Next(p, w, a).view.state == ConnectingRemote
    ensures RemoteSock in Next(p, w, a).view.regs <==> RemoteSock in w.view.regs
  {
    hide Authorised, TakenFrom, SocketSend;
  }

  lemma RepliedExactly(p: Params, w: World)
    requires Inv(p, w) && w.outcome == Keep && w.view.state == ConnectingRemote
    ensures RemoteSock in w.view.regs <==> w.view.log.replies == []
  {
    hide Authorised, TakenFrom;
  }

  /** On every run a connecting session waits for its remote socket if and only if no reply has been
      attempted, which is if and only if the first attempt could be started. */
  lemma WaitsExactly(p: Params, acts: seq<Act>)
    requires Run(p, acts).Some? && Run(p, acts).value.outcome == Keep
    requires Run(p, acts).value.view.state == ConnectingRemote
    ensures var v := Run(p, acts).value.view;
      && (RemoteSock in v.regs <==> v.log.replies == []) && (RemoteSock in v.regs <==> FirstStarted(p, acts))
  {
    hide Run, Inv;
    RunKeeps(p, acts);
    RepliedExactly(p, Run(p, acts).value);
    RegisteredExactly(p, acts);
  }

  lemma {:induction false} RegisteredExactly(p: Params, acts: seq<Act>)
    requires Run(p, acts).Some? && Run(p, acts).value.view.state == ConnectingRemote
    ensures RemoteSock in Run(p, acts).value.view.regs <==> FirstStarted(p, acts)
    decreases |acts|
  {
    hide Next, Inv;
    if acts != [] {
      var before, a := acts[..|acts| - 1], acts[|acts| - 1];
      PrefixOfRun(p, acts);
      RunKeeps(p, before);
      var w := Run(p, before).value;
      if w.view.state != ConnectingRemote {
        EntersConnecting(p, w, a);
      } else {
        RegisteredExactly(p, before);
        StaysConnecting(p, w, a);
      }
    }
  }

  // ---------- a run ----------

  /** A greeting that offers no authentication, and as well a command to connect to an IPv4 address. */
  function Greeting(): (data: Block)
    ensures data[0] == 5 && data[1] == 1 && data[2] == 0 && data[3] == 1
  {
    [5, 1, 0, 1] + seq(BUFFER_SIZE - 4, _ => 0)
  }

  /** No connection attempt can be started. */
  function Answers(): Env {
    Env(Data(RecvBuffer(Greeting(), 10)), WouldBlock, 2, 10, true, 0, NoResponse, false, true, true, true, 0)
  }

  /** The client is told of the failure, and the session goes on all the same. */
  lemma FailureIsIgnored(p: Params) returns (acts: seq<Act>)
    requires p.Method() == NoAuth
    ensures Run(p, acts).Some?
    ensures var w := Run(p, acts).value;
      w.outcome == Keep && IsStranded(w.view) && w.view.log.replies == [GeneralFailure]
  {
    hide Run, Authorised, TakenFrom;
    acts := Start(p);
    acts := Polled(p, acts);
    assert Methods(Greeting())[0] == 0;
    acts := Happened(p, acts, ClientSock, Read, Answers());
    acts := Polled(p, acts);
    RunKeeps(p, acts);
    acts := Happened(p, acts, ClientSock, Read, Answers());
  }
}
