/** The edit distance behind the command line's suggestions: the table that computes it, and why its
    last cell is the least number of edits. */
module Levenshtein {

  const SIZE_MAX := 0xFFFF_FFFF_FFFF_FFFF

  /** A string whose size the program can represent. */
  type Text = s: string | |s| < SIZE_MAX

  function Init(s: string): string
    requires s != ""
  {
    s[..|s| - 1]
  }

  function Last(s: string): char
    requires s != ""
  {
    s[|s| - 1]
  }

  function Min(x: nat, y: nat): nat { if x <= y then x else y }

  /** What a cell of the table is computed from. */
  function Distance(s: string, t: string): (d: nat)
    ensures d <= if |s| >= |t| then |s| else |t|
    decreases |s| + |t|
  {
    if s == "" then |t|
    else if t == "" then |s|
    else if Last(s) == Last(t) then Distance(Init(s), Init(t))
    else 1 + Min(Distance(Init(s), t), Min(Distance(s, Init(t)), Distance(Init(s), Init(t))))
  }

  // ---------- edits ----------

  /** A single edit at a position of the text. */
  datatype Edit = Insert(at: nat, c: char) | Delete(at: nat) | Substitute(at: nat, c: char)

  predicate Applies(e: Edit, s: string) {
    if e.Insert? then e.at <= |s| else e.at < |s|
  }

  function Apply(e: Edit, s: string): string
    requires Applies(e, s)
  {
    match e
    case Insert(at, c) => s[..at] + [c] + s[at..]
    case Delete(at) => s[..at] + s[at + 1..]
    case Substitute(at, c) => s[..at] + [c] + s[at + 1..]
  }

  /** The edits, one after another, turn `s` into `t`. */
  predicate Turns(es: seq<Edit>, s: string, t: string)
    decreases |es|
  {
    if es == [] then s == t else Applies(es[0], s) && Turns(es[1..], Apply(es[0], s), t)
  }

  // ---------- the distance as a metric ----------

  lemma {:induction false} Symmetric(s: string, t: string)
    ensures Distance(s, t) == Distance(t, s)
    decreases |s| + |t|
  {
    if s != "" && t != "" {
      Symmetric(Init(s), t);
      Symmetric(s, Init(t));
      Symmetric(Init(s), Init(t));
    }
  }

  lemma {:induction false} Reflexive(s: string)
    ensures Distance(s, s) == 0
  {
    if s != "" {
      Reflexive(Init(s));
    }
  }

  /** Dropping the last character changes the distance by at most one. */
  lemma {:induction false} DropLast(s: string, t: string)
    requires s != ""
    ensures Distance(s, t) <= Distance(Init(s), t) + 1
    ensures Distance(Init(s), t) <= Distance(s, t) + 1
    decreases |s| + |t|
  {
    if t != "" {
      DropLast(s, Init(t));
      DropLastRight(Init(s), t);
    }
  }

  lemma {:induction false} DropLastRight(s: string, t: string)
    requires t != ""
    ensures Distance(s, t) <= Distance(s, Init(t)) + 1
    ensures Distance(s, Init(t)) <= Distance(s, t) + 1
    decreases |s| + |t|
  {
    if s != "" {
      DropLastRight(Init(s), t);
      DropLast(s, Init(t));
    }
  }

  /** A cell is at most what each of its three neighbours allows, also where the characters agree. */
  lemma Neighbours(s: string, t: string)
    requires s != "" && t != ""
    ensures Distance(s, t) <= 1 + Distance(Init(s), t)
    ensures Distance(s, t) <= 1 + Distance(s, Init(t))
    ensures Distance(s, t) <= 1 + Distance(Init(s), Init(t))
  {
    DropLast(s, t);
    DropLastRight(s, t);
  }

  lemma {:induction false} LengthGap(s: string, t: string)
    ensures |s| <= Distance(s, t) + |t| && |t| <= Distance(s, t) + |s|
    decreases |s| + |t|
  {
    if s != "" && t != "" {
      LengthGap(Init(s), t);
      LengthGap(s, Init(t));
      LengthGap(Init(s), Init(t));
    }
  }

  /** The triangle inequality. */
  lemma {:induction false} Triangle(s: string, u: string, t: string)
    ensures Distance(s, t) <= Distance(s, u) + Distance(u, t)
    decreases |s| + |u| + |t|
  {
    if s == "" || t == "" || u == "" {
      LengthGap(s, u);
      LengthGap(u, t);
    } else {
      Neighbours(s, t);
      TriangleStep(s, u, t);
    }
  }

  lemma {:induction false} TriangleStep(s: string, u: string, t: string)
    requires s != "" && u != "" && t != ""
    requires Distance(s, t) <= 1 + Distance(Init(s), t)
    requires Distance(s, t) <= 1 + Distance(s, Init(t))
    requires Distance(s, t) <= 1 + Distance(Init(s), Init(t))
    ensures Distance(s, t) <= Distance(s, u) + Distance(u, t)
    decreases |s| + |u| + |t|, 0
  {
    Triangle(Init(s), u, t);
    Triangle(s, u, Init(t));
    Triangle(s, Init(u), t);
    Triangle(s, Init(u), Init(t));
    Triangle(Init(s), Init(u), t);
    Triangle(Init(s), Init(u), Init(t));
  }

  /** A common ending does not count. */
  lemma {:induction false} CommonEnding(s: string, t: string, q: string)
    ensures Distance(s + q, t + q) == Distance(s, t)
    decreases |q|
  {
    if q == "" {
      assert s + q == s && t + q == t;
    } else {
      assert Init(s + q) == s + Init(q) && Init(t + q) == t + Init(q);
      CommonEnding(s, t, Init(q));
    }
  }

  /** One edit moves the text by a distance of at most one. */
  lemma OneEdit(e: Edit, s: string)
    requires Applies(e, s)
    ensures Distance(s, Apply(e, s)) <= 1
  {
    var p := s[..e.at];
    Reflexive(p);
    if e.Insert? {
      var pc := p + [e.c];
      assert Init(pc) == p;
      DropLastRight(p, pc);
      assert s == p + s[e.at..];
      CommonEnding(p, pc, s[e.at..]);
    } else {
      var q, px := s[e.at + 1..], p + [s[e.at]];
      assert s == px + q && Init(px) == p;
      if e.Delete? {
        DropLast(px, p);
        CommonEnding(px, p, q);
      } else {
        var pc := p + [e.c];
        assert Init(pc) == p;
        Neighbours(px, pc);
        CommonEnding(px, pc, q);
      }
    }
  }

  /** No list of edits is shorter than the distance. */
  lemma {:induction false} NoFewerEdits(es: seq<Edit>, s: string, t: string)
    requires Turns(es, s, t)
    ensures Distance(s, t) <= |es|
    decreases |es|
  {
    if es == [] {
      Reflexive(s);
    } else {
      var s' := Apply(es[0], s);
      OneEdit(es[0], s);
      NoFewerEdits(es[1..], s', t);
      Triangle(s, s', t);
    }
  }

  // ---------- the distance is attained ----------

  lemma {:induction false} TurnsOn(es: seq<Edit>, fs: seq<Edit>, s: string, u: string, t: string)
    requires Turns(es, s, u) && Turns(fs, u, t)
    ensures Turns(es + fs, s, t)
    decreases |es|
  {
    if es == [] {
      assert es + fs == fs;
    } else {
      hide Apply, Applies;
      assert (es + fs)[1..] == es[1..] + fs && (es + fs)[0] == es[0];
      TurnsOn(es[1..], fs, Apply(es[0], s), u, t);
    }
  }

  /** Two cuts of a text with something behind it. */
  lemma CutBefore(s: string, q: string, i: nat, j: nat)
    requires i <= j <= |s|
    ensures (s + q)[..i] == s[..i] && (s + q)[j..] == s[j..] + q
  {
  }

  lemma Regroup(x: string, y: string, z: string, q: string)
    ensures x + y + (z + q) == x + y + z + q && x + (z + q) == x + z + q
  {
  }

  lemma ApplyBefore(e: Edit, s: string, q: string)
    requires Applies(e, s)
    ensures Applies(e, s + q) && Apply(e, s + q) == Apply(e, s) + q
  {
    match e
    case Insert(at, c) =>
      CutBefore(s, q, at, at);
      Regroup(s[..at], [c], s[at..], q);
    case Delete(at) =>
      CutBefore(s, q, at, at + 1);
      Regroup(s[..at], [], s[at + 1..], q);
    case Substitute(at, c) =>
      CutBefore(s, q, at, at + 1);
      Regroup(s[..at], [c], s[at + 1..], q);
  }

  /** Edits leave what stands behind the text alone. */
  lemma {:induction false} TurnsBefore(es: seq<Edit>, s: string, t: string, q: string)
    requires Turns(es, s, t)
    ensures Turns(es, s + q, t + q)
    decreases |es|
  {
    if es != [] {
      hide Apply;
      ApplyBefore(es[0], s, q);
      TurnsBefore(es[1..], Apply(es[0], s), t, q);
    }
  }

  lemma TurnsOnce(e: Edit, s: string)
    requires Applies(e, s)
    ensures Turns([e], s, Apply(e, s))
  {
    assert [e][1..] == [];
  }

  lemma {:induction false} DeleteAll(s: string) returns (es: seq<Edit>)
    ensures |es| == |s| && Turns(es, s, "")
  {
    if s == "" {
      es := [];
    } else {
      hide Turns;
      var rest := DeleteAll(Init(s));
      var e := Delete(|s| - 1);
      assert Apply(e, s) == Init(s);
      TurnsOnce(e, s);
      TurnsOn([e], rest, s, Init(s), "");
      es := [e] + rest;
    }
  }

  lemma {:induction false} InsertAll(t: string) returns (es: seq<Edit>)
    ensures |es| == |t| && Turns(es, "", t)
  {
    if t == "" {
      es := [];
    } else {
      hide Turns;
      var rest := InsertAll(Init(t));
      var e := Insert(|t| - 1, Last(t));
      assert Apply(e, Init(t)) == t;
      TurnsOnce(e, Init(t));
      TurnsOn(rest, [e], "", Init(t), t);
      es := rest + [e];
    }
  }

  /** A list of as many edits as the distance says. */
  lemma {:induction false} FewEnoughEdits(s: string, t: string) returns (es: seq<Edit>)
    ensures |es| == Distance(s, t) && Turns(es, s, t)
    decreases |s| + |t|
  {
    hide Turns;
    if s == "" {
      es := InsertAll(t);
    } else if t == "" {
      es := DeleteAll(s);
    } else {
      var s', t' := Init(s), Init(t);
      if Last(s) == Last(t) {
        es := FewEnoughEdits(s', t');
        TurnsBefore(es, s', t', [Last(s)]);
        assert s == s' + [Last(s)] && t == t' + [Last(s)];
      } else if Distance(s, t) == 1 + Distance(s', t) {
        var rest := FewEnoughEdits(s', t);
        es := DeleteFirst(s, t, rest);
      } else if Distance(s, t) == 1 + Distance(s, t') {
        var rest := FewEnoughEdits(s, t');
        es := InsertLast(s, t, rest);
      } else {
        var rest := FewEnoughEdits(s', t');
        es := SubstituteFirst(s, t, rest);
      }
    }
  }

  lemma DeleteFirst(s: string, t: string, rest: seq<Edit>) returns (es: seq<Edit>)
    requires s != "" && Turns(rest, Init(s), t)
    ensures |es| == 1 + |rest| && Turns(es, s, t)
  {
    var e := Delete(|s| - 1);
    assert Apply(e, s) == Init(s);
    TurnsOnce(e, s);
    TurnsOn([e], rest, s, Init(s), t);
    es := [e] + rest;
  }

  lemma InsertLast(s: string, t: string, rest: seq<Edit>) returns (es: seq<Edit>)
    requires t != "" && Turns(rest, s, Init(t))
    ensures |es| == 1 + |rest| && Turns(es, s, t)
  {
    var e := Insert(|t| - 1, Last(t));
    assert Apply(e, Init(t)) == t;
    TurnsOnce(e, Init(t));
    TurnsOn(rest, [e], s, Init(t), t);
    es := rest + [e];
  }

  lemma SubstituteFirst(s: string, t: string, rest: seq<Edit>) returns (es: seq<Edit>)
    requires s != "" && t != "" && Turns(rest, Init(s), Init(t))
    ensures |es| == 1 + |rest| && Turns(es, s, t)
  {
    var e := Substitute(|s| - 1, Last(t));
    var u := Init(s) + [Last(t)];
    assert Apply(e, s) == u && t == Init(t) + [Last(t)];
    TurnsOnce(e, s);
    TurnsBefore(rest, Init(s), Init(t), [Last(t)]);
    TurnsOn([e], rest, s, u, t);
    es := [e] + rest;
  }

  /** The distance is the least number of insertions, deletions and substitutions, in any order and at
      any positions, that turn one text into the other. */
  lemma LeastNumberOfEdits(s: string, t: string)
    ensures exists es :: Turns(es, s, t) && |es| == Distance(s, t)
    ensures forall es :: Turns(es, s, t) ==> Distance(s, t) <= |es|
  {
    var best := FewEnoughEdits(s, t);
    forall es | Turns(es, s, t) ensures Distance(s, t) <= |es| {
      NoFewerEdits(es, s, t);
    }
  }

  // ---------- the table ----------

  /** The cell for the first `i` and the first `j` characters. */
  lemma Cell(s1: string, s2: string, i: nat, j: nat)
    requires i <= |s1| && j <= |s2|
    ensures Distance(s1[..i], s2[..j]) ==
      if i == 0 then j
      else if j == 0 then i
      else if s1[i - 1] == s2[j - 1] then Distance(s1[..i - 1], s2[..j - 1])
      else 1 + Min(Distance(s1[..i - 1], s2[..j]),
                   Min(Distance(s1[..i], s2[..j - 1]), Distance(s1[..i - 1], s2[..j - 1])))
  {
    if i > 0 && j > 0 {
      assert Init(s1[..i]) == s1[..i - 1] && Init(s2[..j]) == s2[..j - 1];
    }
  }

  method GetLevenshteinDistance(s1: string, s2: string) returns (r: nat)
    ensures r == Distance(s1, s2)
  {
    hide Distance;
    var dp := new nat[|s1| + 1, |s2| + 1]((i, j) => 0);
    for i := 0 to |s1| + 1
      invariant forall a, b | 0 <= a < i && 0 <= b <= |s2| :: dp[a, b] == Distance(s1[..a], s2[..b])
    {
      for j := 0 to |s2| + 1
        invariant forall a, b | 0 <= a < i && 0 <= b <= |s2| :: dp[a, b] == Distance(s1[..a], s2[..b])
        invariant forall b | 0 <= b < j :: dp[i, b] == Distance(s1[..i], s2[..b])
      {
        Cell(s1, s2, i, j);
        if i == 0 {
          dp[i, j] := j;
        } else if j == 0 {
          dp[i, j] := i;
        } else {
          if s1[i - 1] == s2[j - 1] {
            dp[i, j] := dp[i - 1, j - 1];
          } else {
            dp[i, j] := 1 + Min(dp[i - 1, j], Min(dp[i, j - 1], dp[i - 1, j - 1]));
          }
        }
      }
    }
    assert s1[..|s1|] == s1 && s2[..|s2|] == s2;
    return dp[|s1|, |s2|];
  }

  /** `keys` are the keys of the map in its order: the result is the first one that is nearest to the
      input, and the empty string if there is none. */
  method GetMostSimilarString(keys: seq<Text>, input: Text) returns (mostSimilar: string)
    ensures keys == [] ==> mostSimilar == ""
    ensures keys != [] ==> exists k | 0 <= k < |keys| :: mostSimilar == keys[k] && Nearest(keys, input, k)
  {
    hide Distance;
    mostSimilar := "";
    var minDistance := SIZE_MAX;
    ghost var k := 0;
    for i := 0 to |keys|
      invariant i == 0 ==> mostSimilar == "" && minDistance == SIZE_MAX
      invariant i > 0 ==> k < i && mostSimilar == keys[k] && minDistance == Distance(keys[k], input)
      invariant i > 0 ==> Nearest(keys[..i], input, k)
    {
      var distance := GetLevenshteinDistance(keys[i], input);
      if distance < minDistance {
        minDistance := distance;
        mostSimilar := keys[i];
        k := i;
      }
      assert keys[..i + 1][..i] == keys[..i];
      assert forall j | 0 <= j < i :: keys[..i][j] == keys[j];
    }
    assert keys[..|keys|] == keys;
  }

  /** No key is nearer than the `k`-th, and all keys before it are farther. */
  predicate Nearest(keys: seq<Text>, input: string, k: nat)
    requires k < |keys|
  {
    && (forall i | 0 <= i < |keys| :: Distance(keys[k], input) <= Distance(keys[i], input))
    && (forall i | 0 <= i < k :: Distance(keys[k], input) < Distance(keys[i], input))
  }
}
