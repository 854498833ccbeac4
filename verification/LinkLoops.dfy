/** The list of visited positions stops exactly the pointer chains that never end. */
module LinkLoops {
  import opened Octets
  import opened Names

  /** Plain pointer following, without a list of visited positions, for at most `fuel` calls. */
  function Follow(b: seq<byte>, pos: nat, links: bool, fuel: nat): Option<Parsed<seq<byte>>>
    decreases fuel
  {
    if fuel == 0 then None
    else
      match Scan(b, pos, links, [])
      case Bad(e) => Some(Failed(e))
      case End(text, next) => Some(Bounded(text, next))
      case Link(text, addr, next) =>
        match Follow(b, addr, true, fuel - 1)
        case None => None
        case Some(Failed(e)) => Some(Failed(e))
        case Some(Parsed(linked, _)) =>
          Some(if next >= |b| then Failed(PosBehindBuffer) else Bounded(Glue(text, linked), next))
  }

  lemma {:induction false} MoreFuel(b: seq<byte>, pos: nat, links: bool, fuel: nat)
    requires Follow(b, pos, links, fuel).Some?
    ensures Follow(b, pos, links, fuel + 1) == Follow(b, pos, links, fuel)
    decreases fuel
  {
    var s := Scan(b, pos, links, []);
    if s.Link? {
      MoreFuel(b, s.addr, true, fuel - 1);
    }
  }

  lemma {:induction false} MuchMoreFuel(b: seq<byte>, pos: nat, links: bool, fuel: nat, more: nat)
    requires Follow(b, pos, links, fuel).Some? && fuel <= more
    ensures Follow(b, pos, links, more) == Follow(b, pos, links, fuel)
    decreases more
  {
    if fuel < more {
      MuchMoreFuel(b, pos, links, fuel, more - 1);
      MoreFuel(b, pos, links, more - 1);
    }
  }

  /** A decoder that reports no loop agrees with plain following, errors included. */
  lemma {:induction false} FuelFor(b: seq<byte>, pos: nat, visited: seq<nat>, links: bool) returns (fuel: nat)
    requires pos <= |b| && DecodeName(b, pos, visited, links) != Failed(LinkLoop)
    ensures Follow(b, pos, links, fuel) == Some(DecodeName(b, pos, visited, links))
    decreases Unvisited(b, visited)
  {
    var s := Scan(b, pos, links, []);
    if s.Link? {
      assert pos in Unvisited(b, visited) && pos !in Unvisited(b, visited + [pos]);
      fuel := FuelFor(b, s.addr, visited + [pos], true);
      fuel := fuel + 1;
    } else {
      fuel := 1;
    }
  }

  /** If following from `pos` needs exactly `fuel` calls and every visited position needs more, the
      decoder reports no loop: each jump leads to a position that needs one call less. */
  lemma {:induction false} NoFalseLoop(b: seq<byte>, pos: nat, visited: seq<nat>, fuel: nat)
    requires pos <= |b| && fuel > 0
    requires Follow(b, pos, true, fuel).Some? && Follow(b, pos, true, fuel - 1).None?
    requires forall v | v in visited :: Follow(b, v, true, fuel).None?
    ensures DecodeName(b, pos, visited, true) != Failed(LinkLoop)
    decreases fuel
  {
    var s := Scan(b, pos, true, []);
    if s.Link? {
      forall v | v in visited + [pos] ensures Follow(b, v, true, fuel - 1).None? {
        if Follow(b, v, true, fuel - 1).Some? {
          MoreFuel(b, v, true, fuel - 1);
        }
      }
      NoFalseLoop(b, s.addr, visited + [pos], fuel - 1);
    }
  }

  lemma {:induction false} LeastFuel(b: seq<byte>, pos: nat, links: bool, fuel: nat) returns (least: nat)
    requires Follow(b, pos, links, fuel).Some?
    ensures 0 < least <= fuel
    ensures Follow(b, pos, links, least).Some? && Follow(b, pos, links, least - 1).None?
    decreases fuel
  {
    if Follow(b, pos, links, fuel - 1).None? {
      least := fuel;
    } else {
      least := LeastFuel(b, pos, links, fuel - 1);
    }
  }

  /** Loop detection is exact: the loop error is reported when and only when plain following never
      ends, and in every other case both give the same name, cursor or error. */
  lemma LoopDetectionExact(b: seq<byte>, pos: nat, links: bool)
    requires pos <= |b|
    ensures DecodeName(b, pos, [], links) == Failed(LinkLoop)
       <==> forall fuel: nat :: Follow(b, pos, links, fuel).None?
    ensures forall fuel: nat :: Follow(b, pos, links, fuel).Some? ==>
              Follow(b, pos, links, fuel) == Some(DecodeName(b, pos, [], links))
  {
    var r := DecodeName(b, pos, [], links);
    if r != Failed(LinkLoop) {
      var enough := FuelFor(b, pos, [], links);
      forall fuel: nat | Follow(b, pos, links, fuel).Some?
        ensures Follow(b, pos, links, fuel) == Some(r)
      {
        if fuel <= enough {
          MuchMoreFuel(b, pos, links, fuel, enough);
        } else {
          MuchMoreFuel(b, pos, links, enough, fuel);
        }
      }
    } else {
      forall fuel: nat ensures Follow(b, pos, links, fuel).None? {
        if Follow(b, pos, links, fuel).Some? {
          if links {
            var least := LeastFuel(b, pos, true, fuel);
            NoFalseLoop(b, pos, [], least);
          }
        }
      }
    }
  }

  // ---------- the chain of jump targets ----------

  /** Where the `n`-th pointer of the chain from `pos` leads, if the chain gets that far. */
  function Jump(b: seq<byte>, pos: nat, n: nat): Option<nat>
    decreases n
  {
    if n == 0 then Some(pos)
    else
      var s := Scan(b, pos, true, []);
      if s.Link? then Jump(b, s.addr, n - 1) else None
  }

  ghost predicate ChainRepeats(b: seq<byte>, pos: nat) {
    exists i: nat, j: nat :: i < j && Jump(b, pos, i).Some? && Jump(b, pos, i) == Jump(b, pos, j)
  }

  lemma {:induction false} JumpOn(b: seq<byte>, pos: nat, m: nat, n: nat)
    requires Jump(b, pos, m).Some?
    ensures Jump(b, pos, m + n) == Jump(b, Jump(b, pos, m).value, n)
    decreases m
  {
    if m > 0 {
      JumpOn(b, Scan(b, pos, true, []).addr, m - 1, n);
    }
  }

  /** A loop error has a witness: the chain came back to a visited position or to itself. */
  lemma {:induction false} LoopHasWitness(b: seq<byte>, start: nat, pos: nat, visited: seq<nat>)
    requires pos <= |b| && DecodeName(b, pos, visited, true) == Failed(LinkLoop)
    requires Jump(b, start, |visited|) == Some(pos)
    requires forall i | 0 <= i < |visited| :: Jump(b, start, i) == Some(visited[i])
    ensures ChainRepeats(b, start)
    decreases Unvisited(b, visited)
  {
    if pos in visited {
      var i :| 0 <= i < |visited| && visited[i] == pos;
      assert Jump(b, start, i) == Jump(b, start, |visited|);
    } else {
      assert pos in Unvisited(b, visited) && pos !in Unvisited(b, visited + [pos]);
      var s := Scan(b, pos, true, []);
      JumpOn(b, start, |visited|, 1);
      assert Jump(b, pos, 1) == Jump(b, s.addr, 0);
      LoopHasWitness(b, start, s.addr, visited + [pos]);
    }
  }

  lemma {:induction false} EndedChain(b: seq<byte>, pos: nat, fuel: nat)
    requires Follow(b, pos, true, fuel).Some?
    ensures Jump(b, pos, fuel).None?
    decreases fuel
  {
    var s := Scan(b, pos, true, []);
    if s.Link? {
      EndedChain(b, s.addr, fuel - 1);
    }
  }

  lemma {:induction false} CycleGoesOn(b: seq<byte>, pos: nat, d: nat, n: nat)
    requires d > 0 && Jump(b, pos, d) == Some(pos)
    ensures Jump(b, pos, n).Some?
    decreases n
  {
    if n >= d {
      CycleGoesOn(b, pos, d, n - d);
      JumpOn(b, pos, d, n - d);
    } else if Jump(b, pos, n).None? {
      ChainStaysEnded(b, pos, n, d);
    }
  }

  lemma {:induction false} ChainStaysEnded(b: seq<byte>, pos: nat, m: nat, n: nat)
    requires Jump(b, pos, m).None? && m <= n
    ensures Jump(b, pos, n).None?
    decreases m
  {
    var s := Scan(b, pos, true, []);
    if s.Link? {
      ChainStaysEnded(b, s.addr, m - 1, n - 1);
    }
  }

  /** Following a chain that repeats a position never ends. */
  lemma RepeatsNeverEnds(b: seq<byte>, pos: nat, i: nat, j: nat, fuel: nat)
    requires i < j && Jump(b, pos, i).Some? && Jump(b, pos, i) == Jump(b, pos, j)
    ensures Follow(b, pos, true, fuel).None?
  {
    hide Follow, Jump;
    var x := Jump(b, pos, i).value;
    JumpOn(b, pos, i, j - i);
    if Follow(b, pos, true, fuel).Some? {
      EndedChain(b, pos, fuel);
      if fuel >= i {
        JumpOn(b, pos, i, fuel - i);
        CycleGoesOn(b, x, j - i, fuel - i);
      } else {
        ChainStaysEnded(b, pos, fuel, i);
      }
    }
  }

  /** The loop error occurs exactly when the chain of jump targets really repeats a position. */
  lemma LoopIffChainRepeats(b: seq<byte>, pos: nat)
    requires pos <= |b|
    ensures DecodeName(b, pos, [], true) == Failed(LinkLoop) <==> ChainRepeats(b, pos)
  {
    if DecodeName(b, pos, [], true) == Failed(LinkLoop) {
      LoopHasWitness(b, pos, pos, []);
    } else if ChainRepeats(b, pos) {
      var i: nat, j: nat :| i < j && Jump(b, pos, i).Some? && Jump(b, pos, i) == Jump(b, pos, j);
      var fuel := FuelFor(b, pos, [], true);
      RepeatsNeverEnds(b, pos, i, j, fuel);
    }
  }
}
