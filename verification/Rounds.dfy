/** One round of the server's loop, in terms of what the poller was asked and has reported and of the
    histories of all sessions. */
module Rounds {
  import opened Octets
  import opened SessionSpec
  import opened SessionRuns
  import opened Pollers
  import opened Sessions

  /** Whether something other than the wish of a session ends the loop. */
  predicate Ends(outcome: Outcome) { outcome == Threw || outcome == Undefined }

  type Histories = map<Session, seq<Act>>

  type Watched = map<Pointer, Interest>

  /** One round of the loop: what was registered when it polled and what was reported, and the histories after
      the poll and after the round, with what was registered then. */
  datatype Round =
    Round(watched: Watched, batch: seq<Event<Pointer>>, before: Histories, after: Histories, registered: Watched,
          admitted: bool)  // whether a client could be accepted and its address asked for

  /** The session's run has ended because it did not want to go on. */
  ghost predicate Left(p: Params, acts: seq<Act>) {
    Run(p, acts).Some? && Run(p, acts).value.outcome == Drop
  }

  predicate ForSession(event: Event<Pointer>) { event.ptr.Some? && event.ptr != Some(TheServer) }

  /** The last event of the session's run has ended so. */
  ghost predicate EndedIn(p: Params, acts: seq<Act>, outcome: Outcome) {
    Run(p, acts).Some? && Run(p, acts).value.outcome == outcome
  }

  /** Why a round ends early: a client could not be admitted, or the event of a session has ended so. */
  ghost predicate EndsBecause(p: Params, batch: seq<Event<Pointer>>, now: Histories, outcome: Outcome, admitted: bool) {
    || (outcome == Threw && !admitted && exists j | 0 <= j < |batch| :: Connects(batch[j]))
    || (exists s | s in now :: EndedIn(p, now[s], outcome))
  }

  /** The event was delivered to its session between two points of its history, unless the session has
      left. */
  ghost predicate Handled(p: Params, event: Event<Pointer>, was: Histories, now: Histories) {
    ForSession(event) ==>
      var s, k := event.ptr.value.session, event.ptr.value.kind;
      && s in was && s in now && was[s] <= now[s]
      && (Left(p, now[s]) || exists e :: Deliver(k, event.flags, e) in now[s][|was[s]|..])
  }

  /** Every event that was reported was handled in the round. */
  ghost predicate AllHandled(p: Params, r: Round) {
    forall j | 0 <= j < |r.batch| :: Handled(p, r.batch[j], r.before, r.after)
  }

  /** The listening socket is waited for, and of the sessions that have not left exactly the sockets, with
      exactly the interests, that their runs say. */
  ghost predicate Watches(p: Params, watched: Watched, before: Histories) {
    && TheServer in watched && watched[TheServer] == {Read}
    && (forall ptr | ptr in watched && ptr != TheServer :: ptr.session in before && !Left(p, before[ptr.session]))
    && (forall s | s in before && !Left(p, before[s]) :: WatchesAll(p, watched, s, before[s]))
  }

  ghost predicate WatchesAll(p: Params, watched: Watched, s: Session, acts: seq<Act>) {
    && Run(p, acts).Some? && Run(p, acts).value.outcome == Keep
    && var regs := Run(p, acts).value.view.regs;
       && Run(p, acts).value.polled == regs
       && forall k: Kind ::
            && (SocketOf(s, k) in watched <==> k in regs)
            && (k in regs ==> watched[SocketOf(s, k)] == regs[k])
  }

  /** The listening socket reports that a client wants to connect. */
  predicate Connects(event: Event<Pointer>) { event.ptr == Some(TheServer) && Read in event.flags }

  /** The session is new: nothing has happened to it, and its client's socket is registered. */
  predicate Joined(s: Session, was: Histories, now: Histories, registered: Watched) {
    && s !in was && s in now && now[s] == []
    && SocketOf(s, ClientSock) in registered && registered[SocketOf(s, ClientSock)] == {Read, Closed}
  }

  /** If a client wants to connect exactly one session is new, otherwise none is. */
  ghost predicate Admits(batch: seq<Event<Pointer>>, n: nat, was: Histories, now: Histories, registered: Watched)
    requires n <= |batch|
  {
    if exists j :: 0 <= j < n && Connects(batch[j])
    then exists s | s in now :: Joined(s, was, now, registered) && now.Keys == was.Keys + {s}
    else now.Keys == was.Keys
  }

  ghost predicate AdmitsAll(r: Round) {
    Admits(r.batch, |r.batch|, r.before, r.after, r.registered)
  }

  /** No history is lost or rewritten from one to the other. */
  ghost predicate GoesOn(was: Histories, now: Histories) {
    forall s | s in was :: s in now && was[s] <= now[s]
  }

  /** The rounds follow each other, and their histories are part of the present one. */
  ghost predicate InOrder(rounds: seq<Round>, now: Histories) {
    && (forall i | 0 <= i < |rounds| :: GoesOn(rounds[i].before, rounds[i].after) && GoesOn(rounds[i].after, now))
    && (forall i | 0 < i < |rounds| :: Follows(rounds[i - 1].after, rounds[i].before))
    && (rounds != [] ==> rounds[0].before == map[] && rounds[|rounds| - 1].after == now)
  }

  /** The same sessions, with no history lost or rewritten. */
  ghost predicate Follows(was: Histories, now: Histories) {
    was.Keys == now.Keys && GoesOn(was, now)
  }

  ghost function Pollings(rounds: seq<Round>): seq<Polling<Pointer>> {
    seq(|rounds|, i requires 0 <= i < |rounds| => Polling(rounds[i].watched, rounds[i].batch))
  }

  /** The listening socket has reported something else than a connection. */
  predicate Stops(batch: seq<Event<Pointer>>) {
    exists j | 0 <= j < |batch| :: StopsAt(batch[j])
  }

  predicate StopsAt(event: Event<Pointer>) { event.ptr == Some(TheServer) && Read !in event.flags }

  /** The round was not left early: every event was handled, and who wanted to connect was admitted. */
  ghost predicate Complete(p: Params, r: Round) {
    AllHandled(p, r) && AdmitsAll(r) && !Stops(r.batch)
  }

  /** How the last round may end: completely, because the listening socket fails, or by an exception or
      undefined behaviour that has a reason. */
  ghost predicate EndsWell(p: Params, r: Round, outcome: Outcome) {
    if Ends(outcome) then EndsBecause(p, r.batch, r.after, outcome, r.admitted)
    else Complete(p, r) || (AdmitsAll(r) && Stops(r.batch))
  }

  // ---------- what has been handled ----------

  ghost predicate AllRuns(p: Params, now: Histories) {
    forall s | s in now :: Run(p, now[s]).Some?
  }

  /** The event is void, and the session that it was for has left. */
  ghost predicate Voided(p: Params, event: Event<Pointer>, was: Event<Pointer>, now: Histories) {
    && event.ptr.None? && ForSession(was)
    && was.ptr.value.session in now && Left(p, now[was.ptr.value.session])
  }

  /** The events from the `i`-th on are as they were reported, but for those of sessions that have left. */
  ghost predicate AsReported(p: Params, events: seq<Event<Pointer>>, batch: seq<Event<Pointer>>, i: nat,
                             now: Histories)
  {
    |events| == |batch| && forall j | i <= j < |events| :: events[j] == batch[j] || Voided(p, events[j], batch[j], now)
  }

  lemma AsReportedAtFirst(p: Params, batch: seq<Event<Pointer>>, now: Histories)
    ensures AsReported(p, batch, batch, 0, now)
  {
  }

  lemma StillThere(p: Params, events: seq<Event<Pointer>>, batch: seq<Event<Pointer>>, i: nat, now: Histories)
    requires AsReported(p, events, batch, i, now) && i < |events|
    ensures events[i].ptr.Some? ==> events[i] == batch[i]
    ensures events[i].ptr.None? ==> !Connects(batch[i]) && !StopsAt(batch[i])
  {
  }

  lemma StopIsReported(p: Params, events: seq<Event<Pointer>>, batch: seq<Event<Pointer>>, i: nat,
                       now: Histories)
    requires AsReported(p, events, batch, i, now) && i < |events|
    requires events[i].ptr == Some(TheServer) && Read !in events[i].flags
    ensures Stops(batch)
  {
  }

  /** One more event has been taken care of. */
  lemma OneMore(p: Params, rest: seq<Event<Pointer>>, events: seq<Event<Pointer>>, batch: seq<Event<Pointer>>, i: nat,
                start: Histories, was: Histories, now: Histories)
    requires AsReported(p, rest, batch, i, was) && i < |rest| == |events|
    requires GoesOn(start, was) && GoesOn(was, now) && AllRuns(p, now)
    requires forall j | 0 <= j < |batch| && ForSession(batch[j]) :: batch[j].ptr.value.session in start
    requires forall j | 0 <= j < i :: Handled(p, batch[j], start, was)
    requires forall j | i < j < |rest| :: events[j] == rest[j] || Voided(p, events[j], rest[j], now)
    requires ForSession(rest[i]) ==> Handled(p, rest[i], was, now)
    ensures AsReported(p, events, batch, i + 1, now)
    ensures forall j | 0 <= j <= i :: Handled(p, batch[j], start, now)
  {
    hide Left;
    forall j | i <= j < |rest| ensures rest[j] == batch[j] || Voided(p, rest[j], batch[j], now) {
      if rest[j] != batch[j] {
        var s := batch[j].ptr.value.session;
        LeftForGood(p, was[s], now[s]);
      }
    }
    forall j | 0 <= j < i ensures Handled(p, batch[j], start, now) {
      StaysHandled(p, batch[j], start, was, now);
    }
    if rest[i] == batch[i] {
      HandledSinceEarlier(p, batch[i], start, was, now);
    }
  }

  lemma Delivered(p: Params, event: Event<Pointer>, was: Histories, now: Histories, e: Env)
    requires ForSession(event) && event.ptr.value.session in was
    requires var s := event.ptr.value.session;
      s in now && now[s] == was[s] + [Deliver(event.ptr.value.kind, event.flags, e)]
    ensures Handled(p, event, was, now)
  {
    var s := event.ptr.value.session;
    assert now[s][|was[s]|..] == [Deliver(event.ptr.value.kind, event.flags, e)];
  }

  /** What has been handled stays handled. */
  lemma StaysHandled(p: Params, event: Event<Pointer>, start: Histories, was: Histories,
                     now: Histories)
    requires Handled(p, event, start, was) && GoesOn(was, now) && AllRuns(p, now)
    ensures Handled(p, event, start, now)
  {
    hide Left;
    if ForSession(event) {
      var s, k := event.ptr.value.session, event.ptr.value.kind;
      if Left(p, was[s]) {
        LeftForGood(p, was[s], now[s]);
      } else {
        var e :| Deliver(k, event.flags, e) in was[s][|start[s]|..];
        StillIn(Deliver(k, event.flags, e), was[s], now[s], |start[s]|, |start[s]|);
      }
    }
  }

  /** What has been handled since later has been handled since earlier. */
  lemma HandledSinceEarlier(p: Params, event: Event<Pointer>, earlier: Histories,
                            later: Histories, now: Histories)
    requires Handled(p, event, later, now) && GoesOn(earlier, later)
    requires ForSession(event) ==> event.ptr.value.session in earlier
    ensures Handled(p, event, earlier, now)
  {
    hide Left;
    if ForSession(event) {
      var s, k := event.ptr.value.session, event.ptr.value.kind;
      if !Left(p, now[s]) {
        var e :| Deliver(k, event.flags, e) in now[s][|later[s]|..];
        StillIn(Deliver(k, event.flags, e), now[s], now[s], |later[s]|, |earlier[s]|);
      }
    }
  }

  /** Nothing happens to a session that has left. */
  lemma {:induction false} LeftForGood(p: Params, was: seq<Act>, now: seq<Act>)
    requires Left(p, was) && Run(p, now).Some? && was <= now
    ensures was == now
  {
    if |was| < |now| {
      var before := now[..|now| - 1];
      LeftForGood(p, was, before);
    }
  }

  lemma OneMoreRound(rounds: seq<Round>, round: Round, was: Histories)
    requires InOrder(rounds, was) && Follows(was, round.before) && GoesOn(round.before, round.after)
    requires rounds == [] ==> was == map[]
    ensures InOrder(rounds + [round], round.after)
    ensures Pollings(rounds + [round]) == Pollings(rounds) + [Polling(round.watched, round.batch)]
  {
    hide GoesOn;
    GoesOnOn(rounds, was, round.before, round.after);
    var all, n := rounds + [round], |rounds|;
    assert forall i | 0 <= i < n :: all[i] == rounds[i];
    assert all[n] == round;
    if n > 0 {
      assert rounds[n - 1].after == was;
    }
  }

  lemma GoesOnOn(rounds: seq<Round>, was: Histories, before: Histories, now: Histories)
    requires forall i | 0 <= i < |rounds| :: GoesOn(rounds[i].after, was)
    requires GoesOn(was, before) && GoesOn(before, now)
    ensures (forall i | 0 <= i < |rounds| :: GoesOn(rounds[i].after, now)) && GoesOn(now, now)
  {
  }

  // ---------- who joins ----------

  lemma NobodyYet(batch: seq<Event<Pointer>>, was: Histories, registered: Watched)
    ensures Admits(batch, 0, was, was, registered)
  {
  }

  /** The first client that wants to connect is admitted. */
  lemma OneJoins(batch: seq<Event<Pointer>>, i: nat, s: Session, was: Histories, mid: Histories, now: Histories,
                 before: Watched, registered: Watched)
    requires i < |batch| && Connects(batch[i]) && Admits(batch, i, was, mid, before)
    requires forall j | 0 <= j < i :: batch[j].ptr != batch[i].ptr
    requires Joined(s, mid, now, registered) && now.Keys == mid.Keys + {s}
    ensures Admits(batch, i + 1, was, now, registered)
  {
    assert forall j | 0 <= j < i :: !Connects(batch[j]);
    assert mid.Keys == was.Keys;
    assert Joined(s, was, now, registered);
  }

  /** Nothing but the registrations of one session's sockets has changed. */
  predicate SameButFor(x: Session, was: Watched, now: Watched) {
    && (forall ptr | ptr in was && !(ptr.SocketOf? && ptr.session == x) :: ptr in now && now[ptr] == was[ptr])
    && (forall ptr | ptr in now && !(ptr.SocketOf? && ptr.session == x) :: ptr in was)
  }

  lemma SameTwice(x: Session, was: Watched, mid: Watched, now: Watched)
    requires SameButFor(x, was, mid) && SameButFor(x, mid, now)
    ensures SameButFor(x, was, now)
  {
  }

  /** An event of a session admits nobody, and leaves a new one alone. */
  lemma NobodyJoins(batch: seq<Event<Pointer>>, i: nat, x: Session, was: Histories, mid: Histories, now: Histories,
                    before: Watched, registered: Watched)
    requires i < |batch| && !Connects(batch[i]) && Admits(batch, i, was, mid, before)
    requires mid.Keys == now.Keys && (forall s | s in mid && s != x :: now[s] == mid[s])
    requires x in mid && mid[x] != [] && SameButFor(x, before, registered)
    ensures Admits(batch, i + 1, was, now, registered)
  {
    if exists j :: 0 <= j < i && Connects(batch[j]) {
      var s :| s in mid && Joined(s, was, mid, before) && mid.Keys == was.Keys + {s};
      assert Joined(s, was, now, registered);
      var j :| 0 <= j < i && Connects(batch[j]);
      assert 0 <= j < i + 1;
    } else {
      assert forall j | 0 <= j < i + 1 :: !Connects(batch[j]);
    }
  }

  /** A void event admits nobody. */
  lemma NothingJoins(batch: seq<Event<Pointer>>, i: nat, was: Histories, now: Histories, registered: Watched)
    requires i < |batch| && !Connects(batch[i]) && Admits(batch, i, was, now, registered)
    ensures Admits(batch, i + 1, was, now, registered)
  {
    if exists j :: 0 <= j < i && Connects(batch[j]) {
      var j :| 0 <= j < i && Connects(batch[j]);
      assert 0 <= j < i + 1;
    } else {
      assert forall j | 0 <= j < i + 1 :: !Connects(batch[j]);
    }
  }

  /** The listening socket has no second event. */
  lemma NobodyElseJoins(batch: seq<Event<Pointer>>, i: nat, was: Histories, now: Histories, registered: Watched)
    requires i < |batch| && batch[i].ptr == Some(TheServer) && !Connects(batch[i])
    requires forall j, k | 0 <= j < k < |batch| && batch[j].ptr.Some? :: batch[j].ptr != batch[k].ptr
    requires Admits(batch, i, was, now, registered)
    ensures Admits(batch, |batch|, was, now, registered)
  {
    assert forall j | 0 <= j < |batch| :: !Connects(batch[j]);
  }

  lemma StillIn<T>(x: T, xs: seq<T>, ys: seq<T>, m: nat, n: nat)
    requires n <= m <= |xs| && xs <= ys && x in xs[m..]
    ensures x in ys[n..]
  {
    var i :| 0 <= i < |xs[m..]| && xs[m..][i] == x;
    assert ys[n..][m + i - n] == x;
  }
}
