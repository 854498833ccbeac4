/** The server's event loop over all its sessions. */
module Servers {
  import opened Octets
  import opened SessionSpec
  import opened SessionRuns
  import opened SessionSafety
  import opened Relay
  import opened Destinations
  import opened OctetOrigins
  import opened Stranded
  import opened Pollers
  import opened Sessions
  import opened Rounds

  class Server {
    const params: Params
    const poller: Poller<Pointer>
    var sessions: seq<Session>
    var serving: bool
    ghost var runs: Histories  // what has happened to each session

    constructor (params: Params)
      ensures this.params == params && sessions == [] && !serving && runs == map[]
      ensures fresh(poller) && poller.mRegistered == map[] && poller.reported == [] && Valid()
    {
      this.params := params;
      poller := new Poller<Pointer>();
      sessions, serving, runs := [], false, map[];
    }

    /** The session has come to its present state by a run in the sense of `SessionRuns`. */
    ghost predicate OnRun(s: Session)
      requires s.clientBuffer.Valid() && s.remoteBuffer.Valid()
      reads `runs, s, s.clientBuffer, s.remoteBuffer, s.Footprint()
    {
      && s in runs && Run(params, runs[s]).Some?
      && Run(params, runs[s]).value.view == s.Value() && Run(params, runs[s]).value.outcome == Keep
    }

    ghost predicate Good(s: Session)
      reads `runs, poller`mRegistered, s, s.poller`mRegistered, s.clientBuffer, s.remoteBuffer, s.Footprint()
    {
      && s.params == params && s.poller == poller && s.Valid() && OnRun(s)
      && this !in s.Footprint() && poller !in s.Footprint()
    }

    /** Everything that the loop may change. */
    ghost function Repr(): (objects: set<object>)
      ensures this in objects && poller in objects
      reads `sessions, sessions, set s | s in sessions :: s.clientBuffer, set s | s in sessions :: s.remoteBuffer
    {
      {this, poller} + (set s, o | s in sessions && o in s.Footprint() :: o)
    }

    /** Nothing that existed before has been taken over. */
    twostate predicate Grown()
      reads `sessions, sessions, set s | s in sessions :: s.clientBuffer, set s | s in sessions :: s.remoteBuffer
    {
      forall o | o in Repr() :: o in old(Repr()) || fresh(o)
    }

    /** Every session is a new one or was there before, and no history is lost or rewritten, not even that
        of a session that is gone. */
    twostate predicate Continues()
      reads `sessions, `runs
    {
      (forall s | s in sessions :: s in old(sessions) || fresh(s)) && GoesOn(old(runs), runs)
    }

    /** Whatever has happened to any session, live or gone, is a run in the sense of `SessionRuns`. */
    ghost predicate History()
      reads `runs
    {
      forall s | s in runs :: Run(params, runs[s]).Some?
    }

    /** Every session that ever was is live or has left. */
    ghost predicate Accounted()
      reads `sessions, `runs
    {
      forall s | s in runs :: s in sessions || Left(params, runs[s])
    }

    /** The poller waits for the listening socket. */
    ghost predicate Listening()
      reads poller`mRegistered
    {
      TheServer in poller.mRegistered && poller.mRegistered[TheServer] == {Read}
    }

    /** The sessions share nothing but the poller. */
    ghost predicate Apart()
      reads `sessions, sessions, set s | s in sessions :: s.clientBuffer, set s | s in sessions :: s.remoteBuffer
    {
      forall s, t | s in sessions && t in sessions && s != t :: s.Footprint() !! t.Footprint()
    }

    ghost predicate Distinct()
      reads `sessions
    {
      forall i, j | 0 <= i < j < |sessions| :: sessions[i] != sessions[j]
    }

    /** Every registered pointer is the server or a socket of a live session. */
    ghost predicate NothingDangles()
      reads `sessions, poller`mRegistered
    {
      forall ptr | ptr in poller.mRegistered :: ptr == TheServer || ptr.session in sessions
    }

    /** Every live session is in a state that a run leads to. */
    ghost predicate Valid()
      reads `sessions, `runs, poller`mRegistered, sessions
      reads set s | s in sessions :: s.clientBuffer, set s | s in sessions :: s.remoteBuffer
      reads (set s | s in sessions :: s.poller)`mRegistered, set s, o | s in sessions && o in s.Footprint() :: o
    {
      (forall s | s in sessions :: Good(s)) && Apart() && Distinct() && NothingDangles()
    }

    /** The sockets of a session whose event of the last poll is still to come, with what was asked for. */
    ghost function Polled(s: Session): Registrations
      requires s in runs && Run(params, runs[s]).Some?
      reads `runs
    {
      Run(params, runs[s]).value.polled
    }

    /** A remaining event is void, or for the server, or for a socket of a live session that the poller
        was asked about. */
    ghost predicate Dispatchable(event: Event<Pointer>)
      reads `sessions, `runs
    {
      event.ptr.Some? && event.ptr != Some(TheServer) ==>
        var s, k := event.ptr.value.session, event.ptr.value.kind;
        && s in sessions && s in runs && Run(params, runs[s]).Some? && k in Polled(s)
        && event.flags != {} && event.flags <= Polled(s)[k] + {Closed, Error}
    }

    /** A session that is about to be deleted. */
    ghost predicate Doomed(x: Session)
      reads this, poller`mRegistered, x, x.poller`mRegistered, x.clientBuffer, x.remoteBuffer, x.Footprint()
    {
      && x in sessions && x.params == params && x.poller == poller && x.Valid()
      && this !in x.Footprint() && poller !in x.Footprint()
      && (forall k | k in x.regs :: Owns(x.Value(), k))
    }

    /** Like `Valid`, but for one session. */
    ghost predicate ValidBut(x: Session)
      reads `sessions, `runs, poller`mRegistered, sessions
      reads set s | s in sessions :: s.clientBuffer, set s | s in sessions :: s.remoteBuffer
      reads (set s | s in sessions :: s.poller)`mRegistered, set s, o | s in sessions && o in s.Footprint() :: o
    {
      (forall s | s in sessions && s != x :: Good(s)) && Apart() && Distinct() && NothingDangles()
    }

    /** Delivers an event to a session; what was still to come is still possible. */
    method Dispatch(session: Session, kind: Kind, flags: Interest, e: Env) returns (outcome: Outcome)
      requires Valid() && EnvOk(e) && Dispatchable(Event(flags, Some(SocketOf(session, kind))))
      requires session in sessions && Owns(session.Value(), kind) && History()
      modifies session.Footprint(), poller`mRegistered, this`runs
      ensures sessions == old(sessions) && serving == old(serving)
      ensures Grown() && History() && session.OthersKept()
      ensures outcome == Keep ==> Valid()
      ensures outcome == Drop ==> ValidBut(session) && Doomed(session)
      ensures session in old(runs) && runs == old(runs)[session := old(runs)[session] + [Deliver(kind, flags, e)]]
      ensures Run(params, runs[session]).Some? && Run(params, runs[session]).value.outcome == outcome
      ensures Polled(session) == Remove(old(Polled(session)), kind) && poller.reported == old(poller.reported)
    {
      hide Run, Owns, Session.Valid, Session.Footprint, Good, Apart, Distinct, NothingDangles, Grown, Polled, History,
        Repr, Valid, ValidBut, Doomed, Dispatchable;
      ValidMeans();
      GoodMeans(session);
      ApartMeans(session);
      outcome := HandOver(session, kind, flags, e);
      forall s | s in sessions && s != session ensures forall o | o in old(s.Footprint()) :: !fresh(o) {
        NothingFresh(s);
      }
      assert forall s | s in sessions && s != session :: unchanged(old(s.Footprint()));
      OthersStay(session);
      if outcome == Keep {
        ValidAgain(session);
      }
    }

    lemma ValidMeans()
      requires Valid()
      ensures (forall s | s in sessions :: Good(s)) && Apart()
    {
      hide Good;
    }

    lemma ValidAgain(x: Session)
      requires ValidBut(x) && Good(x)
      ensures Valid()
    {
      hide Good;
    }

    lemma ApartMeans(x: Session)
      requires (forall s | s in sessions && s != x :: Good(s)) && Apart() && x in sessions
      ensures forall s | s in sessions && s != x ::
        s.Footprint() !! x.Footprint() && this !in s.Footprint() && poller !in s.Footprint()
    {
      hide Run, OnRun, Session.Valid, Session.Footprint;
    }

    /** The session handles the event, and its run goes on with it. */
    method HandOver(session: Session, kind: Kind, flags: Interest, e: Env) returns (outcome: Outcome)
      requires Good(session) && EnvOk(e) && Dispatchable(Event(flags, Some(SocketOf(session, kind))))
      requires session in sessions && Owns(session.Value(), kind) && History()
      modifies session.Footprint(), poller`mRegistered, this`runs
      ensures session.OthersKept() && fresh(session.Footprint() - old(session.Footprint())) && History()
      ensures outcome == Keep ==> Good(session)
      ensures outcome == Drop ==> Doomed(session)
      ensures session in old(runs) && runs == old(runs)[session := old(runs)[session] + [Deliver(kind, flags, e)]]
      ensures Run(params, runs[session]).Some? && Run(params, runs[session]).value.outcome == outcome
      ensures Polled(session) == Remove(old(Polled(session)), kind) && poller.reported == old(poller.reported)
    {
      hide Run, SessionSpec.ProcessEvent, Inv, Owns, Session.Valid, Session.Footprint, Good, OnRun;
      ghost var a := Deliver(kind, flags, e);
      GoodMeans(session);
      RunsOn(params, runs[session], a);
      outcome := session.ProcessEvent(kind, flags, e);
      runs := runs[session := runs[session] + [a]];
      if outcome == Keep {
        MakesGood(session);
      }
    }

    lemma GoodMeans(s: Session)
      requires Good(s)
      ensures s.params == params && s.poller == poller && s.Valid() && this !in s.Footprint()
      ensures poller !in s.Footprint()
      ensures s in runs && Run(params, runs[s]).Some?
      ensures Run(params, runs[s]).value.view == s.Value() && Run(params, runs[s]).value.outcome == Keep
    {
      hide Run;
    }

    lemma MakesGood(s: Session)
      requires s.params == params && s.poller == poller && s.Valid() && this !in s.Footprint()
      requires poller !in s.Footprint()
      requires s in runs && Run(params, runs[s]).Some?
      requires Run(params, runs[s]).value.view == s.Value() && Run(params, runs[s]).value.outcome == Keep
      ensures Good(s)
    {
      hide Run;
    }

    /** What belongs to a live session belongs to the server. */
    lemma FootprintInRepr(s: Session)
      requires s in sessions
      ensures s.Footprint() <= Repr() && this in Repr() && poller in Repr() && s in s.Footprint()
    {
    }

    /** The other sessions are not touched by what happens to one. */
    twostate lemma OthersStay(x: Session)
      requires old(Valid()) && x in old(sessions) && sessions == old(sessions)
      requires forall s | s in sessions && s != x :: unchanged(old(s.Footprint()))
      requires x.poller == poller && x.OthersKept() && fresh(x.Footprint() - old(x.Footprint()))
      requires forall s | s in sessions && s != x && s in old(runs) :: s in runs && runs[s] == old(runs[s])
      ensures ValidBut(x) && Grown()
    {
      hide Good, Session.Footprint, Apart, Grown;
      OthersStayGood(x);
      ApartStill(x);
      GrownStill(x);
    }

    twostate lemma OthersStayGood(x: Session)
      requires forall s | s in old(sessions) && s != x :: old(Good(s))
      requires forall s | s in old(sessions) && s != x :: unchanged(old(s.Footprint()))
      requires x.poller == poller && x.OthersKept()
      requires forall s | s in old(sessions) && s != x && s in old(runs) :: s in runs && runs[s] == old(runs[s])
      ensures forall s | s in old(sessions) && s != x :: Good(s) && s.Footprint() == old(s.Footprint())
    {
      hide Good, Session.Footprint;
      forall s | s in old(sessions) && s != x ensures Good(s) && s.Footprint() == old(s.Footprint()) {
        StaysGood(s);
      }
    }

    /** With the same footprints the sessions are as far apart as before. */
    twostate lemma SameFootprints()
      requires sessions == old(sessions) && forall s | s in sessions :: s.Footprint() == old(s.Footprint())
      ensures old(Apart()) ==> Apart()
      ensures Repr() == old(Repr())
    {
      hide Session.Footprint;
    }

    twostate lemma ApartStill(x: Session)
      requires old(Apart()) && x in old(sessions) && sessions == old(sessions)
      requires forall s | s in sessions && s != x :: s.Footprint() == old(s.Footprint())
      requires fresh(x.Footprint() - old(x.Footprint()))
      ensures Apart()
    {
      hide Session.Footprint;
      var was, now := old(x.Footprint()), x.Footprint();
      forall s | s in sessions && s != x ensures s.Footprint() !! now {
        var kept := s.Footprint();
        NothingFresh(s);
        assert kept !! was && kept !! now - was;
        StillDisjoint(kept, was, now);
      }
    }

    twostate lemma NothingFresh(s: Session)
      ensures forall o | o in old(s.Footprint()) :: !fresh(o)
    {
    }

    twostate lemma GrownStill(x: Session)
      requires x in old(sessions) && sessions == old(sessions)
      requires forall s | s in sessions && s != x :: s.Footprint() == old(s.Footprint())
      requires fresh(x.Footprint() - old(x.Footprint()))
      ensures Grown()
    {
      forall o | o in Repr() && o !in old(Repr()) ensures fresh(o) {
        assert o in x.Footprint() - old(x.Footprint());
      }
    }

    /** The registrations of a session are as they were. */
    twostate predicate RegistrationsKept(s: Session)
      reads poller`mRegistered
    {
      forall k: Kind ::
        && (SocketOf(s, k) in old(poller.mRegistered) <==> SocketOf(s, k) in poller.mRegistered)
        && (SocketOf(s, k) in poller.mRegistered ==>
              poller.mRegistered[SocketOf(s, k)] == old(poller.mRegistered)[SocketOf(s, k)])
    }

    twostate lemma StaysGood(s: Session)
      requires old(Good(s)) && RegistrationsKept(s) && unchanged(old(s.Footprint()))
      requires s in old(runs) ==> s in runs && runs[s] == old(runs[s])
      ensures Good(s) && s.Footprint() == old(s.Footprint())
    {
      hide Run;
    }

    // ---------- sessions come and go ----------

    method CreateNewSession(named: bool) returns (session: Session, outcome: Outcome)
      requires Valid()
      modifies this`sessions, this`runs, poller`mRegistered
      ensures fresh(session) && Grown() && outcome == if named then Keep else Threw
      ensures outcome == Keep ==>
        Valid() && sessions == old(sessions) + [session] && runs == old(runs)[session := []]
      ensures outcome == Threw ==> sessions == old(sessions) && runs == old(runs)
      ensures poller.mRegistered == old(poller.mRegistered)[SocketOf(session, ClientSock) := {Read, Closed}]
    {
      hide Run, Good, Session.Coupled, Session.Valid, Session.Footprint, Distinct, Apart, NothingDangles, Repr;
      session, outcome := Accept(named);
      assert forall s | s in sessions :: s.Footprint() == old(s.Footprint());
      if outcome == Keep {
        Enlist(session);
        GrownByOne(session);
      }
    }

    twostate lemma GrownByOne(new session: Session)
      requires sessions == old(sessions) + [session] && fresh(session.Footprint())
      requires forall s | s in old(sessions) :: s.Footprint() == old(s.Footprint())
      ensures Grown()
    {
      hide Session.Footprint;
      forall o | o in Repr() && o !in old(Repr()) ensures fresh(o) {
        assert forall s | s in sessions && o in s.Footprint() :: s == session;
      }
    }

    /** A session that shares nothing with the others, but for the registration of its client's socket. */
    method Accept(named: bool) returns (session: Session, outcome: Outcome)
      requires Valid()
      modifies poller`mRegistered
      ensures fresh(session) && fresh(session.Footprint()) && outcome == if named then Keep else Threw
      ensures (forall s | s in sessions :: Good(s)) && Apart() && Distinct() && Repr() == old(Repr())
      ensures forall s | s in sessions :: s.Footprint() == old(s.Footprint()) && s.Footprint() !! session.Footprint()
      ensures forall ptr | ptr in poller.mRegistered ::
        ptr == TheServer || ptr.session in sessions || ptr.session == session
      ensures session.params == params && session.poller == poller && session.Valid()
      ensures outcome == Keep ==> session.Value() == Initial()
      ensures poller.mRegistered == old(poller.mRegistered)[SocketOf(session, ClientSock) := {Read, Closed}]
    {
      hide Run, Good, Session.Coupled, Session.Valid, Session.Footprint, Distinct, Repr;
      forall s | s in sessions ensures poller !in s.Footprint() {
        GoodMeans(s);
      }
      session := new Session(params, poller);
      label made:
      outcome := session.Initialize(named);
      assert SameButFor(session, old@made(poller.mRegistered), poller.mRegistered);
      forall s | s in sessions ensures forall o | o in old(s.Footprint()) :: !fresh(o) {
        NothingFresh(s);
      }
      assert forall s | s in sessions :: unchanged(old(s.Footprint())) && RegistrationsKept(s);
      forall s | s in sessions ensures Good(s) && s.Footprint() == old(s.Footprint()) {
        StaysGood(s);
      }
      SameFootprints();
      OnlyItsClient(session);
    }

    twostate lemma OnlyItsClient(new session: Session)
      requires old(NothingDangles()) && fresh(session) && session.poller == poller
      requires SameButFor(session, old(poller.mRegistered), poller.mRegistered)
      requires session.Coupled() && session.regs == map[ClientSock := {Read, Closed}]
      ensures poller.mRegistered == old(poller.mRegistered)[SocketOf(session, ClientSock) := {Read, Closed}]
    {
      var was, now := old(poller.mRegistered), poller.mRegistered;
      assert forall ptr | ptr in was :: ptr == TheServer || ptr.session in old(sessions);
      forall ptr: Pointer
        ensures ptr in now <==> ptr in was || ptr == SocketOf(session, ClientSock)
        ensures ptr in was ==> now[ptr] == was[ptr]
      {
        if ptr.SocketOf? && ptr.session == session {
          assert ptr == SocketOf(session, ptr.kind);
        }
      }
    }

    method Enlist(session: Session)
      requires session !in sessions && (forall s | s in sessions :: Good(s)) && Apart() && Distinct()
      requires forall s | s in sessions :: s.Footprint() !! session.Footprint()
      requires forall ptr | ptr in poller.mRegistered ::
        ptr == TheServer || ptr.session in sessions || ptr.session == session
      requires session.params == params && session.poller == poller && session.Valid() && session.Value() == Initial()
      requires this !in session.Footprint() && poller !in session.Footprint()
      modifies this`sessions, this`runs
      ensures Valid() && sessions == old(sessions) + [session] && runs == old(runs)[session := []]
      ensures forall s | s in old(sessions) :: s.Footprint() == old(s.Footprint())
    {
      hide Run, Good, Session.Coupled, Session.Valid, Session.Footprint;
      forall s | s in sessions ensures this !in s.Footprint() {
        GoodMeans(s);
      }
      sessions := sessions + [session];
      runs := runs[session := []];
      forall s | s in old(sessions) ensures Good(s) && s.Footprint() == old(s.Footprint()) {
        StaysGood(s);
      }
      StartsGood(session);
    }

    lemma StartsGood(s: Session)
      requires s.params == params && s.poller == poller && s.Valid() && s.Value() == Initial()
      requires s in runs && runs[s] == [] && this !in s.Footprint() && poller !in s.Footprint()
      ensures Good(s)
    {
    }

    /** Its sockets leave the poller before the session leaves the list. */
    method DeleteSession(session: Session)
      requires ValidBut(session) && Doomed(session)
      modifies session`regs, session`closed, poller`mRegistered, this`sessions
      ensures Valid() && forall s | s in sessions :: s in old(sessions) && s != session
      ensures forall s | s in old(sessions) && s != session :: s in sessions
      ensures Repr() <= old(Repr())
      ensures session.OthersKept()
    {
      hide Run, Good, Distinct, Apart, Repr, Session.Footprint;
      Detach(session);
      Erase(session);
    }

    /** No socket of the session stays in the poller. */
    method Detach(session: Session)
      requires ValidBut(session) && Doomed(session)
      modifies session`regs, session`closed, poller`mRegistered
      ensures (forall s | s in sessions && s != session :: Good(s)) && Apart() && Distinct() && Repr() == old(Repr())
      ensures forall ptr | ptr in poller.mRegistered ::
        ptr == TheServer || (ptr.session in sessions && ptr.session != session)
      ensures session.OthersKept()
    {
      hide Run, Good, Distinct, Apart, Repr, NothingDangles, Session.Footprint, Session.Valid, Session.Coupled;
      ApartMeans(session);
      session.Shutdown();
      forall s | s in sessions && s != session ensures forall o | o in old(s.Footprint()) :: !fresh(o) {
        NothingFresh(s);
      }
      assert forall s | s in sessions && s != session :: unchanged(old(s.Footprint()));
      OthersStayGood(session);
      SameFootprints();
      NothingLeft(session);
    }

    twostate lemma NothingLeft(x: Session)
      requires old(Doomed(x)) && old(NothingDangles()) && sessions == old(sessions)
      requires x.Coupled() && x.OthersKept() && x.regs.Keys <= old(x.regs).Keys
      requires forall k | k in x.regs :: !Owns(old(x.Value()), k)
      ensures forall ptr | ptr in poller.mRegistered ::
        ptr == TheServer || (ptr.session in sessions && ptr.session != x)
    {
      hide Owns, Session.Footprint;
      assert forall k | k in old(x.regs) :: Owns(old(x.Value()), k);
      assert x.regs.Keys == {};
      assert forall ptr | ptr in poller.mRegistered && ptr != TheServer :: ptr == SocketOf(ptr.session, ptr.kind);
    }

    method Erase(session: Session)
      requires (forall s | s in sessions && s != session :: Good(s)) && Apart() && Distinct() && session in sessions
      requires forall ptr | ptr in poller.mRegistered ::
        ptr == TheServer || (ptr.session in sessions && ptr.session != session)
      modifies this`sessions
      ensures Valid() && forall s | s in sessions :: s in old(sessions) && s != session
      ensures forall s | s in old(sessions) && s != session :: s in sessions
      ensures Repr() <= old(Repr())
    {
      hide Run, Good;
      var at := FindSession(session);
      Erased(sessions, at);
      forall s | s in sessions && s != session ensures this !in s.Footprint() {
        GoodMeans(s);
      }
      sessions := sessions[..at] + sessions[at + 1..];
      forall s | s in sessions ensures Good(s) && s.Footprint() == old(s.Footprint()) {
        StaysGood(s);
      }
    }

    method FindSession(session: Session) returns (at: nat)
      requires session in sessions
      ensures at < |sessions| && sessions[at] == session
    {
      at := 0;
      while sessions[at] != session
        invariant at < |sessions| && session in sessions[at..]
        decreases |sessions| - at
      {
        at := at + 1;
      }
    }

    // ---------- the loop ----------

    /** The events from the `i`-th on can be dispatched, and no socket has two of them. */
    ghost predicate BatchOk(events: seq<Event<Pointer>>, i: nat)
      reads `sessions, `runs
    {
      && (forall j | i <= j < |events| :: Dispatchable(events[j]))
      && (forall j, k | i <= j < k < |events| && events[j].ptr.Some? :: events[j].ptr != events[k].ptr)
    }

    /** Voids the events of a session from the `i`-th on. */
    method Invalidate(events: seq<Event<Pointer>>, i: nat, session: Session) returns (events': seq<Event<Pointer>>)
      requires i <= |events|
      ensures |events'| == |events|
      ensures forall j | 0 <= j < |events| ::
        events'[j] == if j >= i && IsFor(events[j], session) then Event({Closed}, None) else events[j]
    {
      events' := events;
      for j := i to |events|
        invariant |events'| == |events|
        invariant forall n | 0 <= n < |events| ::
          events'[n] == if i <= n < j && IsFor(events[n], session) then Event({Closed}, None) else events[n]
      {
        if IsFor(events'[j], session) {
          events' := events'[j := Event({Closed}, None)];
        }
      }
    }

    static predicate IsFor(event: Event<Pointer>, session: Session) {
      event.ptr.Some? && event.ptr.value != TheServer && event.ptr.value.session == session
    }

    /** What the poller was asked about is a socket of the session. */
    lemma PolledIsOwned(s: Session, k: Kind)
      requires Good(s) && k in Polled(s)
      ensures Owns(s.Value(), k) && s.poller == poller
    {
      hide Run;
      RunKeeps(params, runs[s]);
      PolledOwned(params, Run(params, runs[s]).value, k);
    }

    /** An event is as possible as before if nothing has happened to its session. */
    twostate lemma StaysDispatchable(event: Event<Pointer>)
      requires old(Dispatchable(event))
      requires event.ptr.Some? && event.ptr != Some(TheServer) ==>
        var s := event.ptr.value.session;
        s in sessions && (s in old(runs) ==> s in runs && runs[s] == old(runs)[s])
      ensures Dispatchable(event)
    {
      hide Run;
    }

    /** The other events of a batch stay possible when one is delivered. */
    twostate lemma BatchGoesOn(rest: seq<Event<Pointer>>)
      requires old(BatchOk(rest, 0)) && rest != [] && rest[0].ptr.Some? && rest[0].ptr != Some(TheServer)
      requires
        var x, kind := rest[0].ptr.value.session, rest[0].ptr.value.kind;
        && sessions == old(sessions) && x in sessions
        && x in old(runs) && x in runs && Run(params, old(runs)[x]).Some? && Run(params, runs[x]).Some?
        && Polled(x) == Remove(old(Polled(x)), kind)
        && (forall s | s in old(runs) && s != x :: s in runs && runs[s] == old(runs)[s])
      ensures BatchOk(rest, 1)
    {
      hide Run, Polled;
      var x, kind := rest[0].ptr.value.session, rest[0].ptr.value.kind;
      assert rest[0].ptr == Some(SocketOf(x, kind));
      forall j | 1 <= j < |rest| ensures Dispatchable(rest[j]) {
        if IsFor(rest[j], x) {
          var k := rest[j].ptr.value.kind;
          assert rest[j].ptr == Some(SocketOf(x, k)) && k != kind;
        } else {
          StaysDispatchable(rest[j]);
        }
      }
    }

    lemma SuffixOk(events: seq<Event<Pointer>>, i: nat, n: nat)
      requires i + n <= |events|
      ensures BatchOk(events, i + n) <==> BatchOk(events[i..], n)
    {
      hide Dispatchable;
      var rest := events[i..];
      assert forall j | n <= j < |rest| :: rest[j] == events[i + j];
      assert forall j | i + n <= j < |events| :: events[j] == rest[j - i];
    }

    /** The event of a session's socket; the session is deleted if it does not want to go on. */
    method HandleSessionEvent(events: seq<Event<Pointer>>, i: nat)
      returns (events': seq<Event<Pointer>>, outcome: Outcome)
      requires Valid() && History() && BatchOk(events, i)
      requires i < |events| && ForSession(events[i])
      modifies Repr()
      ensures |events'| == |events| && Grown() && Continues() && History()
      ensures !Ends(outcome) ==> Valid() && BatchOk(events', i + 1) && Handled(params, events[i], old(runs), runs)
      ensures OnlyTouches(events[i].ptr.value.session)
      ensures var x := events[i].ptr.value.session; x in runs && EndedIn(params, runs[x], outcome)
      ensures !Ends(outcome) && old(Accounted()) ==> Accounted()
      ensures old(Listening()) ==> Listening()
      ensures serving == old(serving) && poller.reported == old(poller.reported)
      ensures forall j | i < j < |events| :: events'[j] == events[j] || Voided(params, events'[j], events[j], runs)
    {
      hide Run, Good, Owns, Polled, Repr, Valid, ValidBut, Doomed, BatchOk, Handled, Left, History, Apart, Distinct,
        NothingDangles, Accounted;
      events' := events;
      var session := events[i].ptr.value.session;
      SessionIsLive(events, i);
      FootprintInRepr(session);
      outcome := DispatchNext(events, i);
      if outcome == Drop {
        label dropped:
        events' := DropSession(events, i, session);
        assert session.OthersKept@dropped();
        SameTwice(session, old(poller.mRegistered), old@dropped(poller.mRegistered), poller.mRegistered);
      }
      StillAccounted(session);
    }

    /** The others are live as before or have left, and this one is live or has left. */
    twostate lemma StillAccounted(x: Session)
      requires runs.Keys == old(runs).Keys && (forall s | s in runs && s != x :: runs[s] == old(runs)[s])
      requires forall s | s in old(sessions) && s != x :: s in sessions
      requires x in sessions || (x in runs && Left(params, runs[x]))
      ensures old(Accounted()) ==> Accounted()
    {
      hide Left;
    }

    /** Of the histories only that of one session has changed, and of what is registered only its sockets. */
    twostate predicate OnlyTouches(x: Session)
      reads `runs, poller`mRegistered
    {
      && x in old(runs) && old(runs)[x] != [] && runs.Keys == old(runs).Keys
      && (forall s | s in runs && s != x :: runs[s] == old(runs)[s])
      && SameButFor(x, old(poller.mRegistered), poller.mRegistered)
    }

    lemma SessionIsLive(events: seq<Event<Pointer>>, i: nat)
      requires Valid() && BatchOk(events, i) && i < |events| && ForSession(events[i])
      ensures var s := events[i].ptr.value.session; s in sessions && s in runs && s.poller == poller
    {
      hide Run, Polled, Apart, Distinct, NothingDangles;
      assert Dispatchable(events[i]) && Good(events[i].ptr.value.session);
    }

    /** The session of the event handles it, whatever the operating system answers. */
    method DispatchNext(events: seq<Event<Pointer>>, i: nat) returns (outcome: Outcome)
      requires Valid() && History() && BatchOk(events, i)
      requires i < |events| && ForSession(events[i]) && events[i].ptr.value.session in sessions
      modifies events[i].ptr.value.session.Footprint(), poller`mRegistered, this`runs
      ensures Grown() && Continues() && History()
      ensures sessions == old(sessions) && serving == old(serving) && poller.reported == old(poller.reported)
      ensures OnlyTouches(events[i].ptr.value.session)
      ensures var x := events[i].ptr.value.session; x in runs && EndedIn(params, runs[x], outcome)
      ensures !Ends(outcome) ==> BatchOk(events, i + 1) && Handled(params, events[i], old(runs), runs)
      ensures outcome == Keep ==> Valid()
      ensures outcome == Drop ==>
        var x := events[i].ptr.value.session; ValidBut(x) && Doomed(x) && x in runs && Left(params, runs[x])
    {
      hide Run, Good, Owns, Polled, Repr, ValidBut, Doomed, Apart, Distinct, NothingDangles, Handled, OnlyTouches,
        Session.OthersKept, EnvOk, BatchOk, History;
      var event := events[i];
      var session, kind := event.ptr.value.session, event.ptr.value.kind;
      SomeAnswers();
      var e: Env :| EnvOk(e);
      MayBeDispatched(events, i);
      SuffixOk(events, i, 0);
      outcome := Dispatch(session, kind, event.flags, e);
      if !Ends(outcome) {
        BatchGoesOn(events[i..]);
        SuffixOk(events, i, 1);
        Delivered(params, event, old(runs), runs, e);
      }
      TouchesOne(session);
    }

    lemma SomeAnswers()
      ensures exists e :: EnvOk(e)
    {
      assert EnvOk(Env(PeerClosed, WouldBlock, 0, 0, true, 0, NoResponse, true, true, true, true, 0));
    }

    twostate lemma TouchesOne(x: Session)
      requires x in old(runs) && old(runs)[x] != [] && x in runs && runs == old(runs)[x := runs[x]]
      requires x.OthersKept() && x.poller == poller
      ensures OnlyTouches(x)
    {
    }

    lemma HasHistory(s: Session, k: Kind)
      requires s in runs && Run(params, runs[s]).Some? && k in Polled(s)
      ensures runs[s] != []
    {
    }

    lemma MayBeDispatched(events: seq<Event<Pointer>>, i: nat)
      requires Valid() && BatchOk(events, i) && i < |events| && ForSession(events[i])
      ensures var s, k := events[i].ptr.value.session, events[i].ptr.value.kind;
        && Good(s) && Owns(s.Value(), k) && s.poller == poller && s in runs && runs[s] != []
        && Run(params, runs[s]).Some?
        && Dispatchable(events[i]) && events[i] == Event(events[i].flags, Some(SocketOf(s, k)))
    {
      hide Run, Polled, Owns, Apart, Distinct, NothingDangles;
      var s, k := events[i].ptr.value.session, events[i].ptr.value.kind;
      assert Dispatchable(events[i]) && Good(s);
      PolledIsOwned(s, k);
      HasHistory(s, k);
    }

    /** No event of the session that is still to come survives it. */
    method DropSession(events: seq<Event<Pointer>>, i: nat, session: Session) returns (events': seq<Event<Pointer>>)
      requires i < |events| && ValidBut(session) && Doomed(session) && BatchOk(events, i + 1)
      modifies session`regs, session`closed, poller`mRegistered, this`sessions
      ensures |events'| == |events| && Valid() && BatchOk(events', i + 1) && Repr() <= old(Repr())
      ensures forall s | s in sessions :: s in old(sessions) && s != session
      ensures (forall s | s in old(sessions) && s != session :: s in sessions) && session.OthersKept()
      ensures forall j | 0 <= j < |events| ::
        events'[j] == events[j] || (IsFor(events[j], session) && events'[j].ptr.None?)
    {
      hide Run, Good, Polled, Repr, Distinct;
      events' := Invalidate(events, i, session);
      DeleteSession(session);
    }

    /** The inner loop of `serve`. It ends early if an exception leaves it, if a session leaves defined
        behaviour, or if the listening socket fails; otherwise every event that was reported is handled. */
    method HandleEvents(batch: seq<Event<Pointer>>, accepted: bool, named: bool) returns (outcome: Outcome)
      requires Valid() && History() && BatchOk(batch, 0) && Accounted() && Listening()
      modifies Repr()
      ensures !Ends(outcome) ==> Valid() && Accounted() && Listening()
      ensures !Ends(outcome) ==> Admits(batch, |batch|, old(runs), runs, poller.mRegistered)
      ensures Grown() && Continues() && History() && poller.reported == old(poller.reported)
      ensures !Ends(outcome) && serving ==> forall j | 0 <= j < |batch| :: Handled(params, batch[j], old(runs), runs)
      ensures !Ends(outcome) && old(serving) ==> (serving <==> !Stops(batch))
      ensures Ends(outcome) ==> EndsBecause(params, batch, runs, outcome, accepted && named)
    {
      hide Run, Valid, Dispatchable, Polled, BatchOk, Repr, Handled, AsReported, Admits, Accounted, Left, Listening,
        Joined, SameButFor, EndsBecause;
      HaveRuns(batch);
      NobodyYet(batch, runs, poller.mRegistered);
      AsReportedAtFirst(params, batch, runs);
      var events := batch;
      var i := 0;
      outcome := Keep;
      while i < |events|
        invariant Valid() && BatchOk(events, i) && Grown() && Continues() && History()
        invariant i <= |events| == |batch| && AsReported(params, events, batch, i, runs)
        invariant forall j | 0 <= j < i :: Handled(params, batch[j], old(runs), runs)
        invariant serving == old(serving) && poller.reported == old(poller.reported) && !Ends(outcome)
        invariant forall j | 0 <= j < i :: !StopsAt(batch[j])
        invariant Accounted() && Listening() && Admits(batch, i, old(runs), runs, poller.mRegistered)
        decreases |events| - i
      {
        label before:
        StillThere(params, events, batch, i, runs);
        if events[i].ptr == Some(TheServer) && Read !in events[i].flags {
          StopIsReported(params, events, batch, i, runs);
          NobodyElseJoins(batch, i, old(runs), runs, poller.mRegistered);
          Stop();
          break;
        }
        events, outcome := HandleEvent(events, i, accepted, named, batch, old(runs));
        assert Grown@before() && Continues@before();
        if Ends(outcome) {
          return;
        }
        i := i + 1;
      }
    }

    /** A new client, an event of a session, or a void event. */
    method HandleEvent(events: seq<Event<Pointer>>, i: nat, accepted: bool, named: bool,
                       ghost batch: seq<Event<Pointer>>, ghost start: Histories)
      returns (events': seq<Event<Pointer>>, outcome: Outcome)
      requires Valid() && History() && BatchOk(events, i) && Accounted() && Listening()
      requires i < |events| == |batch| && (events[i].ptr == Some(TheServer) ==> Read in events[i].flags)
      requires forall j | 0 <= j < |batch| && ForSession(batch[j]) :: batch[j].ptr.value.session in start
      requires forall j, k | 0 <= j < k < |batch| && batch[j].ptr.Some? :: batch[j].ptr != batch[k].ptr
      requires GoesOn(start, runs) && AsReported(params, events, batch, i, runs)
      requires forall j | 0 <= j < i :: Handled(params, batch[j], start, runs)
      requires Admits(batch, i, start, runs, poller.mRegistered)
      modifies Repr()
      ensures |events'| == |events| && Grown() && Continues() && History()
      ensures serving == old(serving) && poller.reported == old(poller.reported)
      ensures !Ends(outcome) ==> Valid() && BatchOk(events', i + 1) && Accounted() && Listening()
      ensures !Ends(outcome) ==> AsReported(params, events', batch, i + 1, runs)
      ensures !Ends(outcome) ==> forall j | 0 <= j <= i :: Handled(params, batch[j], start, runs)
      ensures !Ends(outcome) ==> Admits(batch, i + 1, start, runs, poller.mRegistered)
      ensures Ends(outcome) ==> EndsBecause(params, batch, runs, outcome, accepted && named)
    {
      hide Run, Valid, Dispatchable, Polled, BatchOk, Repr, Handled, AsReported, Admits, Accounted, Left, Listening,
        Joined, SameButFor, EndedIn;
      events', outcome := events, Keep;
      StillThere(params, events, batch, i, runs);
      if events[i].ptr == Some(TheServer) {
        outcome := AcceptClient(events, i, accepted, named);
        if !Ends(outcome) {
          ghost var s :|
            s in runs && Joined(s, old(runs), runs, poller.mRegistered) && runs.Keys == old(runs).Keys + {s};
          OneJoins(batch, i, s, start, old(runs), runs, old(poller.mRegistered), poller.mRegistered);
        }
      } else if events[i].ptr.Some? {
        events', outcome := HandleSessionEvent(events, i);
        NobodyJoins(batch, i, events[i].ptr.value.session, start, old(runs), runs, old(poller.mRegistered),
                    poller.mRegistered);
      } else {
        NextEvent(events, i);
        NothingJoins(batch, i, start, runs, poller.mRegistered);
      }
      if !Ends(outcome) {
        OneMore(params, events, events', batch, i, start, old(runs), runs);
      }
    }

    lemma HaveRuns(batch: seq<Event<Pointer>>)
      requires BatchOk(batch, 0)
      ensures forall j | 0 <= j < |batch| && ForSession(batch[j]) :: batch[j].ptr.value.session in runs
      ensures forall j, k | 0 <= j < k < |batch| && batch[j].ptr.Some? :: batch[j].ptr != batch[k].ptr
    {
      hide Run, Polled;
      assert forall j | 0 <= j < |batch| :: Dispatchable(batch[j]);
    }

    lemma NextEvent(events: seq<Event<Pointer>>, i: nat)
      requires BatchOk(events, i) && i < |events|
      ensures BatchOk(events, i + 1)
    {
      hide Dispatchable;
    }

    /** Accepting a connection, and asking for its peer, may throw. */
    method AcceptClient(ghost events: seq<Event<Pointer>>, ghost i: nat, accepted: bool, named: bool)
      returns (outcome: Outcome)
      requires Valid() && History() && BatchOk(events, i)
      modifies this`sessions, this`runs, poller`mRegistered
      ensures Grown() && Continues() && History()
      ensures !Ends(outcome) ==> Valid() && BatchOk(events, i + 1)
      ensures !Ends(outcome) ==> exists s | s in runs ::
        && Joined(s, old(runs), runs, poller.mRegistered) && runs.Keys == old(runs).Keys + {s}
        && sessions == old(sessions) + [s] && (forall x | x in old(runs) :: runs[x] == old(runs)[x])
      ensures (old(Listening()) ==> Listening()) && (old(Accounted()) ==> Accounted())
      ensures outcome == if accepted && named then Keep else Threw
    {
      hide Run, Good, Polled, Repr, Apart, Distinct, NothingDangles;
      if !accepted {
        return Threw;
      }
      var session;
      session, outcome := CreateNewSession(named);
      if outcome == Threw {
        return;
      }
      EmptyRun(params);
      assert Joined(session, old(runs), runs, poller.mRegistered);
      forall j | i + 1 <= j < |events| ensures Dispatchable(events[j]) {
        StaysDispatchable(events[j]);
      }
    }

    method Stop()
      requires Valid()
      modifies this`serving
      ensures Valid() && !serving && Repr() == old(Repr()) && Continues()
    {
      hide Run;
      serving := false;
    }

    /** Every live session has been polled. */
    ghost method NotePoll()
      requires Valid() && History()
      modifies this`runs
      ensures Valid() && Repr() == old(Repr()) && History()
      ensures forall s | s in sessions :: s in runs && Run(params, runs[s]).Some? && Polled(s) == s.regs
      ensures Continues() && runs.Keys == old(runs).Keys && (old(Accounted()) ==> Accounted())
      ensures forall s | s in sessions :: s in old(runs) && runs[s] == old(runs)[s] + [Act.Poll]
    {
      hide Run, OnRun, Session.Coupled, Session.Footprint, Apart, Distinct, NothingDangles, Repr;
      forall s | s in sessions ensures s in runs && Polls(s, runs[s]) {
        GoodMeans(s);
        RunsOn(params, runs[s], Act.Poll);
      }
      label before:
      runs := map s | s in runs :: if s in sessions then runs[s] + [Act.Poll] else runs[s];
      forall s | s in sessions ensures Good(s) && Polled(s) == s.regs && s.Footprint() == old(s.Footprint()) {
        PolledGood(s);
      }
      SameFootprints();
    }

    /** The run goes on with a poll. */
    ghost predicate Polls(s: Session, acts: seq<Act>)
      requires s.clientBuffer.Valid() && s.remoteBuffer.Valid()
      reads s, s.clientBuffer, s.remoteBuffer, s.Footprint()
    {
      Run(params, acts + [Act.Poll]) == Some(World(s.Value(), s.regs, Keep))
    }

    twostate lemma PolledGood(s: Session)
      requires old(Good(s)) && unchanged(poller) && unchanged(old(s.Footprint()))
      requires s in old(runs) && s in runs && runs[s] == old(runs)[s] + [Act.Poll] && old(Polls(s, runs[s]))
      ensures Good(s) && Polled(s) == s.regs && s.Footprint() == old(s.Footprint())
    {
      hide Run;
    }

    /** What the poller reports can be dispatched. */
    lemma ReportedIsOk(events: seq<Event<Pointer>>)
      requires Valid()
      requires forall s | s in sessions :: s in runs && Run(params, runs[s]).Some? && Polled(s) == s.regs
      requires forall i | 0 <= i < |events| ::
        events[i].ptr.Some? && poller.Possible(events[i].ptr.value, events[i].flags)
      requires forall i, j | 0 <= i < j < |events| :: events[i].ptr != events[j].ptr
      ensures BatchOk(events, 0)
    {
      hide Run, Polled, OnRun;
      forall i | 0 <= i < |events| ensures Dispatchable(events[i]) {
        var ptr := events[i].ptr.value;
        if ptr != TheServer {
          assert Good(ptr.session) && ptr == SocketOf(ptr.session, ptr.kind);
        }
      }
    }

    /** What holds for every run holds for every live session, whatever happened to the others. */
    lemma LiveSessionIsSafe(s: Session)
      requires Valid() && s in sessions
      ensures s in runs && Run(params, runs[s]).Some?
      ensures ActsForClient(s.Value()) ==> LetIn(params, s.Value()) && Entitled(params, s.log.greeting, s.log.login)
      ensures s.log.commands <= 1 && |s.log.replies| <= 1 && s.log.attempts <= s.log.targets
      ensures s.log.targets != [] ==> TakenFrom(s.log.request, s.log.response, s.log.targets)
      ensures s.log.attempts != [] ==>
        (SentDestination(s.log.request.value) <==> s.log.request.value.size >= RequestEnd(s.log.request.value.block))
      ensures s.state == ConnectingRemote ==> (RemoteSock in s.regs <==> s.log.replies == [])
      ensures forall d :: Traces(OriginsOn(params, runs[s], d), Came(s.Value(), d), Through(s.Value(), d))
      ensures forall k | SocketOf(s, k) in poller.mRegistered :: Owns(s.Value(), k)
      ensures Shortfall(s.Value()) == ReadOverOn(params, runs[s])
      ensures Conserved(s.Value()) <==> ReadOverOn(params, runs[s]) == 0
      ensures s.state == Connected && Calm(params, runs[s]) ==> InterestsMatch(s.Value())
    {
      hide Run, Inv, Owns, LetIn, TakenFrom, Shortfall, Conserved, Calm, Entitled, Traces, Came, Through,
        SentDestination, RequestEnd, OriginsOn;
      assert Good(s);
      RunIsSafe(params, runs[s]);
      RunIsTold(params, runs[s]);
    }

    /** One poll, of whatever has become ready. */
    method PollEvents() returns (events: seq<Event<Pointer>>)
      requires Valid() && History() && Accounted() && Listening()
      modifies this`runs, poller`reported
      ensures Valid() && History() && Accounted() && Grown() && Continues() && BatchOk(events, 0)
      ensures poller.reported == old(poller.reported) + [Polling(poller.mRegistered, events)]
      ensures Follows(old(runs), runs) && Watches(params, poller.mRegistered, runs)
      ensures forall s | s in sessions :: s in old(runs) && s in runs && runs[s] == old(runs)[s] + [Act.Poll]
    {
      hide Run, BatchOk, Polled, Good, Apart, Distinct, NothingDangles, Repr, Accounted, Watches;
      events := Report();
      NotePoll();
      ReportedIsOk(events);
      AllWatched();
    }

    /** The poller waits for what the runs say. */
    lemma AllWatched()
      requires Valid() && Accounted() && Listening()
      requires forall s | s in sessions :: s in runs && Run(params, runs[s]).Some? && Polled(s) == s.regs
      ensures Watches(params, poller.mRegistered, runs)
    {
      hide Run, Session.Footprint, Apart, Distinct;
      forall s | s in sessions
        ensures s in runs && !Left(params, runs[s]) && WatchesAll(params, poller.mRegistered, s, runs[s])
      {
        GoodMeans(s);
      }
    }

    method Report() returns (events: seq<Event<Pointer>>)
      requires Valid()
      modifies poller`reported
      ensures Valid() && poller.reported == old(poller.reported) + [Polling(poller.mRegistered, events)]
      ensures forall i | 0 <= i < |events| ::
        events[i].ptr.Some? && poller.Possible(events[i].ptr.value, events[i].flags)
      ensures forall i, j | 0 <= i < j < |events| :: events[i].ptr != events[j].ptr
    {
      hide Run, Apart, Distinct, OnRun, Session.Valid;
      var offers: seq<(Pointer, Interest)> := *;
      events := poller.Poll(offers);
    }

    /** One round of the outer loop of `serve`. */
    method ServeOnce(accepted: bool, named: bool) returns (outcome: Outcome, ghost round: Round)
      requires Valid() && History() && serving && Accounted() && Listening()
      modifies Repr()
      ensures Grown() && Continues() && History()
      ensures poller.reported == old(poller.reported) + [Polling(round.watched, round.batch)]
      ensures Follows(old(runs), round.before) && GoesOn(round.before, round.after) && round.after == runs
      ensures Watches(params, round.watched, round.before) && round.registered == poller.mRegistered
      ensures !Ends(outcome) ==> Valid() && Accounted() && Listening()
      ensures EndsWell(params, round, outcome)
      ensures !Ends(outcome) ==> (serving <==> !Stops(round.batch)) && (serving <==> Complete(params, round))
      ensures round.admitted == (accepted && named)
    {
      hide Run, Valid, BatchOk, Polled, Repr, Handled, Accounted, Watches, Admits, EndsBecause, Stops;
      var events := PollEvents();
      label batch:
      ghost var before, watched := runs, poller.mRegistered;
      outcome := HandleEvents(events, accepted, named);
      assert Grown@batch() && Continues@batch();
      round := Round(watched, events, before, runs, poller.mRegistered, accepted && named);
    }

    /** The server's loop for as many rounds as one likes. It is left before only by an exception, by a
        session that leaves defined behaviour, or because the listening socket fails. What each poll has
        reported is handled before the next poll, and however the loop ends, what has happened to every
        session that ever was is a run. */
    method Serve(rounds: nat) returns (outcome: Outcome, ghost served: seq<Round>)
      requires sessions == [] && poller.mRegistered == map[] && runs == map[] && Valid()
      modifies Repr()
      ensures History() && InOrder(served, runs) && poller.reported == old(poller.reported) + Pollings(served)
      ensures forall i | 0 <= i < |served| :: Watches(params, served[i].watched, served[i].before)
      ensures forall i | 0 <= i < |served| - 1 :: Complete(params, served[i])
      ensures served != [] ==> EndsWell(params, served[|served| - 1], outcome)
      ensures served == [] ==> !Ends(outcome)
      ensures |served| == rounds
        || (served != [] && |served| < rounds && (Ends(outcome) || Stops(served[|served| - 1].batch)))
      ensures !Ends(outcome) ==> sessions == [] && !serving
    {
      hide Run, Valid, BatchOk, Polled, Repr, Complete, EndsWell, Watches, GoesOn, Accounted, Stops;
      Start();
      outcome, served := Keep, [];
      for n := 0 to rounds
        invariant Valid() && Grown() && History() && serving && |served| == n
        invariant Accounted() && Listening() && (served == [] ==> runs == map[])
        invariant forall i | 0 <= i < n :: Complete(params, served[i])
        invariant !Ends(outcome) && (n > 0 ==> EndsWell(params, served[n - 1], outcome))
        invariant forall i | 0 <= i < n :: Watches(params, served[i].watched, served[i].before)
        invariant InOrder(served, runs) && poller.reported == old(poller.reported) + Pollings(served)
      {
        label round:
        ghost var round;
        var accepted: bool, named: bool := *, *;  // whatever the operating system answers
        outcome, round := ServeOnce(accepted, named);
        assert Grown@round();
        OneMoreRound(served, round, old@round(runs));
        served := served + [round];
        if Ends(outcome) {
          return;
        }
        if !serving {
          break;
        }
      }
      var _ := poller.RemoveEvent(TheServer);
      sessions := [];
      serving := false;
    }

    method Start()
      requires Valid() && sessions == [] && runs == map[] && poller.mRegistered == map[]
      modifies this`serving, poller`mRegistered
      ensures Valid() && serving && Grown() && Accounted() && Listening()
    {
      hide Run;
      serving := true;
      RegisterServer();
    }

    method RegisterServer()
      requires Valid()
      modifies poller`mRegistered
      ensures Valid() && Repr() == old(Repr())
      ensures TheServer !in old(poller.mRegistered) ==> Listening()
    {
      hide Run, Good;
      var _ := poller.SetEvent(TheServer, {Read}, false);
      forall s | s in sessions ensures Good(s) && s.Footprint() == old(s.Footprint()) {
        StaysGood(s);
      }
    }
  }

  /** The server of the command line: it is made and serves for as many rounds as one likes. */
  method RunServer(params: Params, rounds: nat)
    returns (server: Server, outcome: Outcome, ghost served: seq<Round>)
    ensures fresh(server) && server.params == params && server.History()
    ensures InOrder(served, server.runs) && server.poller.reported == Pollings(served)
    ensures forall i | 0 <= i < |served| :: Watches(params, served[i].watched, served[i].before)
    ensures forall i | 0 <= i < |served| - 1 :: Complete(params, served[i])
    ensures served != [] ==> EndsWell(params, served[|served| - 1], outcome)
    ensures |served| == rounds
      || (served != [] && |served| < rounds && (Ends(outcome) || Stops(served[|served| - 1].batch)))
    ensures !Ends(outcome) ==> server.sessions == [] && !server.serving
  {
    hide Run, InOrder, Complete, EndsWell, Watches;
    server := new Server(params);
    outcome, served := server.Serve(rounds);
    assert server.poller.reported == [] + Pollings(served);
  }

  lemma EmptyRun(p: Params)
    ensures Run(p, []).Some?
  {
  }

  /** The theorems about runs, for a run that goes on. */
  lemma RunIsSafe(p: Params, acts: seq<Act>)
    requires Run(p, acts).Some? && Run(p, acts).value.outcome == Keep
    ensures var v := Run(p, acts).value.view;
      && (ActsForClient(v) ==> LetIn(p, v) && Entitled(p, v.log.greeting, v.log.login))
      && v.log.commands <= 1 && |v.log.replies| <= 1 && v.log.attempts <= v.log.targets
      && (v.log.targets != [] ==> TakenFrom(v.log.request, v.log.response, v.log.targets))
      && (forall k | k in v.regs :: Owns(v, k))
      && Shortfall(v) == ReadOverOn(p, acts) && (Conserved(v) <==> ReadOverOn(p, acts) == 0)
      && (v.state == Connected && Calm(p, acts) ==> InterestsMatch(v))
  {
    hide Run, LetIn, TakenFrom, Shortfall, Conserved, Entitled;
    RunKeeps(p, acts);
    if ActsForClient(Run(p, acts).value.view) {
      OnlyTheClient(p, acts);
    }
    ShortfallExactly(p, acts);
    if Calm(p, acts) {
      RelayConservation(p, acts);
    }
  }

  /** The exact conditions of what is not safe, for a run that goes on. */
  lemma RunIsTold(p: Params, acts: seq<Act>)
    requires Run(p, acts).Some? && Run(p, acts).value.outcome == Keep
    ensures var v := Run(p, acts).value.view; v.log.attempts != [] ==>
      v.log.request.Some? && v.log.request.value.Valid() &&
      var request := v.log.request.value;
      (SentDestination(request) <==> request.size >= RequestEnd(request.block))
    ensures var v := Run(p, acts).value.view;
      v.state == ConnectingRemote ==> (RemoteSock in v.regs <==> v.log.replies == [])
    ensures var v := Run(p, acts).value.view;
      forall d :: Traces(OriginsOn(p, acts, d), Came(v, d), Through(v, d))
  {
    hide Run, Traces, Came, Through, SentDestination, RequestEnd, OriginsOn, AddressOf, DomainPort;
    TargetsAreRead(p, acts);
    if Run(p, acts).value.view.state == ConnectingRemote {
      WaitsExactly(p, acts);
    }
    var v := Run(p, acts).value.view;
    forall d ensures Traces(OriginsOn(p, acts, d), Came(v, d), Through(v, d)) {
      OriginsExact(p, acts, d);
    }
  }

  lemma PolledOwned(p: Params, w: World, k: Kind)
    requires Inv(p, w) && w.outcome == Keep && k in w.polled
    ensures Owns(w.view, k)
  {
  }

  lemma StillDisjoint<T>(kept: set<T>, was: set<T>, now: set<T>)
    requires kept !! was && kept !! now - was
    ensures kept !! now
  {
    assert forall o | o in now :: o in was || o in now - was;
  }

  lemma Erased<T>(xs: seq<T>, at: nat)
    requires at < |xs| && forall i, j | 0 <= i < j < |xs| :: xs[i] != xs[j]
    ensures var ys := xs[..at] + xs[at + 1..];
      && (forall x | x in xs && x != xs[at] :: x in ys) && (forall x | x in ys :: x in xs && x != xs[at])
      && (forall i, j | 0 <= i < j < |ys| :: ys[i] != ys[j])
  {
    var ys := xs[..at] + xs[at + 1..];
    forall x | x in ys ensures x in xs && x != xs[at] {
      var i :| 0 <= i < |ys| && ys[i] == x;
      assert x == if i < at then xs[i] else xs[i + 1];
    }
    forall x | x in xs && x != xs[at] ensures x in ys {
      var i :| 0 <= i < |xs| && xs[i] == x;
      assert x == if i < at then ys[i] else ys[i - 1];
    }
  }

  lemma RunsOn(p: Params, acts: seq<Act>, a: Act)
    requires Run(p, acts).Some? && Enabled(Run(p, acts).value, a)
    ensures Run(p, acts + [a]) == Some(Next(p, Run(p, acts).value, a))
    ensures forall k | k in Next(p, Run(p, acts).value, a).view.regs :: Owns(Next(p, Run(p, acts).value, a).view, k)
  {
    hide Next, Owns;
    assert (acts + [a])[..|acts|] == acts;
    RunKeeps(p, acts);
    StepKeeps(p, Run(p, acts).value, a);
  }
}
