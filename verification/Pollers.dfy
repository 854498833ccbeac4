/** The poller: a map from registered pointers to interests. */
module Pollers {
  import opened Octets
  import opened SessionSpec

  /** How many events one call reports at most. */
  const POLL_BATCH := 512

  datatype Event<T> = Event(flags: Interest, ptr: Option<T>)

  /** One call: what was registered, and what was reported. */
  datatype Polling<T> = Polling(registered: map<T, Interest>, events: seq<Event<T>>)

  class Poller<T(==)> {
    var mRegistered: map<T, Interest>
    ghost var reported: seq<Polling<T>>  // all calls so far

    constructor ()
      ensures mRegistered == map[] && reported == []
    {
      mRegistered, reported := map[], [];
    }

    /** Changes a registration, or makes a new one, and fails where the other was due. */
    method SetEvent(ptr: T, flags: Interest, isMod: bool) returns (ok: bool)
      modifies `mRegistered
      ensures ok <==> (ptr in old(mRegistered) <==> isMod)
      ensures mRegistered == if ok then old(mRegistered)[ptr := flags] else old(mRegistered)
    {
      ok := (ptr in mRegistered) == isMod;
      if ok {
        mRegistered := mRegistered[ptr := flags];
      }
    }

    method RemoveEvent(ptr: T) returns (ok: bool)
      modifies `mRegistered
      ensures ok <==> ptr in old(mRegistered)
      ensures mRegistered == old(mRegistered) - {ptr}
    {
      ok := ptr in mRegistered;
      mRegistered := mRegistered - {ptr};
    }

    /** What the kernel may report: a registered socket, with flags that were asked for or cannot be
        refused. */
    ghost predicate Possible(ptr: T, flags: Interest)
      reads `mRegistered
    {
      ptr in mRegistered && flags != {} && flags <= mRegistered[ptr] + {Closed, Error}
    }

    /** Reports those of the `offers` of the network that are possible, at most one for each socket and at
        most `POLL_BATCH`; the first so many of them if they are possible together. */
    method Poll(offers: seq<(T, Interest)>) returns (events: seq<Event<T>>)
      modifies `reported
      ensures reported == old(reported) + [Polling(mRegistered, events)]
      ensures forall i | 0 <= i < |events| :: events[i].ptr.Some? && Possible(events[i].ptr.value, events[i].flags)
      ensures forall i, j | 0 <= i < j < |events| :: events[i].ptr != events[j].ptr
      ensures |events| <= POLL_BATCH
      ensures Together(offers) ==>
        && |events| == (if |offers| < POLL_BATCH then |offers| else POLL_BATCH)
        && forall i | 0 <= i < |events| :: events[i] == Event(offers[i].1, Some(offers[i].0))
    {
      events := [];
      var seen: set<T> := {};
      for n := 0 to |offers|
        invariant |events| <= POLL_BATCH
        invariant forall ptr | ptr in seen :: exists i | 0 <= i < n :: offers[i].0 == ptr
        invariant forall i | 0 <= i < |events| :: events[i].ptr.Some? && events[i].ptr.value in seen
        invariant forall i | 0 <= i < |events| :: Possible(events[i].ptr.value, events[i].flags)
        invariant forall i, j | 0 <= i < j < |events| :: events[i].ptr != events[j].ptr
        invariant Together(offers) ==>
          && |events| == n && forall i | 0 <= i < n :: events[i] == Event(offers[i].1, Some(offers[i].0))
      {
        if |events| == POLL_BATCH {
          break;
        }
        var (ptr, flags) := offers[n];
        assert Together(offers) ==> Possible(offers[n].0, offers[n].1);
        if ptr !in seen && ptr in mRegistered && flags != {} && flags <= mRegistered[ptr] + {Closed, Error} {
          events := events + [Event(flags, Some(ptr))];
          seen := seen + {ptr};
        }
      }
      reported := reported + [Polling(mRegistered, events)];
    }

    ghost predicate Together(offers: seq<(T, Interest)>)
      reads `mRegistered
    {
      && (forall i | 0 <= i < |offers| :: Possible(offers[i].0, offers[i].1))
      && (forall i, j | 0 <= i < j < |offers| :: offers[i].0 != offers[j].0)
    }
  }
}
