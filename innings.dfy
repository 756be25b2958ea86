/** Where the game stands: the highest inning in the log and the current inning
    derived from it (app.py:17-28). */
module Innings {
  import opened Results
  import opened AtBatLog

  /** The highest inning any at-bat of a non-empty log was recorded in. */
  function MaxInning(log: seq<AtBat>): (m: nat)
    requires |log| > 0
    ensures forall i :: 0 <= i < |log| ==> log[i].inning <= m
    ensures exists i :: 0 <= i < |log| && log[i].inning == m
  {
    var last := |log| - 1;
    if last == 0 then log[0].inning
    else
      var m := MaxInning(log[..last]);
      if log[last].inning > m then log[last].inning else m
  }

  /** The inning being played: 1 before anything is logged; otherwise the
      highest logged inning while it has fewer than three outs, and the one after
      it once it has three or more. */
  function CurrentInningOf(log: seq<AtBat>): (r: nat)
    ensures log == [] ==> r == 1
    ensures log != [] ==> r == MaxInning(log) || r == MaxInning(log) + 1
    ensures log != [] ==> (r == MaxInning(log) <==> Outs(log, MaxInning(log)) < 3)
    ensures forall i :: 0 <= i < |log| ==> log[i].inning <= r
    ensures r == 0 ==> forall i :: 0 <= i < |log| ==> log[i].inning == 0
  {
    if log == [] then 1
    else
      var m := MaxInning(log);
      if Outs(log, m) < 3 then m else m + 1
  }

  /** The loop of get_current_inning: one pass over the log filling a map from
      inning to the outs made in it, then the highest key of the map decides. */
  method CurrentInning(log: seq<AtBat>) returns (inning: nat)
    ensures inning == CurrentInningOf(log)
  {
    if |log| == 0 {
      return 1;
    }
    var inningOuts: map<nat, nat> := map[];
    var i := 0;
    while i < |log|
      invariant 0 <= i <= |log|
      invariant forall k :: k in inningOuts <==> exists j :: 0 <= j < i && log[j].inning == k
      invariant forall k :: k in inningOuts ==> inningOuts[k] == Outs(log[..i], k)
    {
      var ab := log[i];
      assert log[..i + 1] == log[..i] + [ab];
      if ab.inning !in inningOuts {
        SumOfZeros(log[..i], OutsIn(ab.inning));
        inningOuts := inningOuts[ab.inning := 0];
      }
      inningOuts := inningOuts[ab.inning := inningOuts[ab.inning] + OutsOf(ab.result)];
      forall k | k in inningOuts
        ensures inningOuts[k] == Outs(log[..i + 1], k)
      {
        SumAppend(log[..i], ab, OutsIn(k));
      }
      i := i + 1;
    }
    assert log[..i] == log;
    assert log[0].inning in inningOuts;
    var maxInning := MaxKey(inningOuts);
    MaxKeyIsMaxInning(log, inningOuts, maxInning);
    if inningOuts[maxInning] < 3 {
      return maxInning;
    }
    return maxInning + 1;
  }

  /** The highest key of a non-empty map: `max(d.keys())`, scanning the keys
      and keeping the largest seen so far. */
  method MaxKey(d: map<nat, nat>) returns (m: nat)
    requires d != map[]
    ensures m in d
    ensures forall k :: k in d ==> k <= m
  {
    m :| m in d;
    var unseen := d.Keys - {m};
    while unseen != {}
      invariant unseen <= d.Keys && m in d
      invariant forall k :: k in d && k !in unseen ==> k <= m
      decreases |unseen|
    {
      var k :| k in unseen;
      if k > m {
        m := k;
      }
      unseen := unseen - {k};
    }
  }

  /** A map keyed by exactly the logged innings has `MaxInning` as its highest key. */
  lemma MaxKeyIsMaxInning(log: seq<AtBat>, d: map<nat, nat>, m: nat)
    requires |log| > 0
    requires forall k :: k in d <==> exists j :: 0 <= j < |log| && log[j].inning == k
    requires m in d && forall k :: k in d ==> k <= m
    ensures m == MaxInning(log)
  {
    var top := MaxInning(log);
    var j :| 0 <= j < |log| && log[j].inning == top;
    assert top in d;
  }

  lemma MaxInningAppend(log: seq<AtBat>, a: AtBat)
    requires |log| > 0
    ensures MaxInning(log + [a]) == if a.inning > MaxInning(log) then a.inning else MaxInning(log)
  {
    assert (log + [a])[..|log|] == log;
  }

  /** The current inning never moves backwards as at-bats are appended, unless the
      very first one is logged in inning 0. */
  lemma CurrentInningMonotone(log: seq<AtBat>, a: AtBat)
    requires log != [] || a.inning >= 1
    ensures CurrentInningOf(log + [a]) >= CurrentInningOf(log)
  {
    if log != [] {
      var m := MaxInning(log);
      MaxInningAppend(log, a);
      OutsMonotone(log, [a], m);
    }
  }
}
