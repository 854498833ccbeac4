/** Building runs event by event. */
module SampleRuns {
  import opened Octets
  import opened SessionSpec
  import opened SessionRuns

  lemma Start(p: Params) returns (acts: seq<Act>)
    ensures Run(p, acts) == Some(World(Initial(), map[], Keep))
  {
    acts := [];
  }

  lemma On(p: Params, acts: seq<Act>, a: Act)
    requires Run(p, acts).Some? && Enabled(Run(p, acts).value, a)
    ensures Run(p, acts + [a]) == Some(Next(p, Run(p, acts).value, a))
  {
    hide Next;
    assert (acts + [a])[..|acts|] == acts;
  }

  /** After a poll in the same run. */
  lemma Polled(p: Params, acts: seq<Act>) returns (more: seq<Act>)
    requires Run(p, acts).Some? && Run(p, acts).value.outcome == Keep
    ensures Run(p, more).Some? && more == acts + [Poll]
    ensures var w := Run(p, acts).value; Run(p, more) == Some(World(w.view, w.view.regs, Keep))
  {
    On(p, acts, Poll);
    more := acts + [Poll];
  }

  /** After one flag of a socket has been reported. */
  lemma Happened(p: Params, acts: seq<Act>, k: Kind, flag: Flag, e: Env) returns (more: seq<Act>)
    requires Run(p, acts).Some? && Run(p, acts).value.outcome == Keep && EnvOk(e)
    requires var polled := Run(p, acts).value.polled; k in polled && flag in polled[k]
    ensures Run(p, more).Some? && more == acts + [Deliver(k, {flag}, e)]
    ensures var w, r := Run(p, acts).value, ProcessEvent(p, Run(p, acts).value.view, k, {flag}, e);
      Run(p, more) == Some(World(r.view, Remove(w.polled, k), r.outcome))
  {
    hide ProcessEvent;
    var a := Deliver(k, {flag}, e);
    On(p, acts, a);
    more := acts + [a];
  }
}
