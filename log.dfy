/** The at-bat log of one game, the batting-order rows, and the sums and queries
    the engine runs over the log (models.py:18-35, app.py:12-15, app.py:123, app.py:176-179). */
module AtBatLog {
  import opened Options
  import opened Results

  /** One recorded at-bat. `id` is the store's key: a fresh id exceeds every
      earlier one. `inning` is non-negative because it reaches the engine through
      an integer URL segment or the engine's own arithmetic. */
  datatype AtBat = AtBat(
    id: nat,
    playerId: int,
    order: int,
    result: Result,
    inning: nat,
    rbis: int,
    position: string,
    note: string)

  /** One batting-order row: the slot number and the player batting there. */
  datatype Slot = Slot(order: int, playerId: int)

  /** Log order is store order: ids strictly increase along the log. */
  ghost predicate IdsIncreasing(log: seq<AtBat>) {
    forall i, j :: 0 <= i < j < |log| ==> log[i].id < log[j].id
  }

  /** The lineup's slots are numbered 0, 1, ..., n-1 in list order. */
  ghost predicate Contiguous(lineup: seq<Slot>) {
    forall i :: 0 <= i < |lineup| ==> lineup[i].order == i
  }

  // ---------------------------------------------------------------------------
  // Tallies: every per-at-bat quantity the engine adds up over the log.

  datatype Tally =
    | OutsIn(inning: nat)  // outs made in one inning
    | PositiveRbi          // runs the team score takes from an at-bat
    | AtBatCount           // official at-bats
    | Hits                 // base hits
    | HomeRuns             // home runs
    | Rbi                  // runs batted in as the box score adds them (any non-zero value)

  /** The tallies that never take a negative value. */
  predicate NonNegative(t: Tally) {
    !t.Rbi?
  }

  function Weight(a: AtBat, t: Tally): int {
    match t
    case OutsIn(k) => if a.inning == k then OutsOf(a.result) else 0
    case PositiveRbi => if a.rbis > 0 then a.rbis else 0
    case AtBatCount => if CountsAsAtBat(a.result) then 1 else 0
    case Hits => if IsHit(a.result) then 1 else 0
    case HomeRuns => if IsHomeRun(a.result) then 1 else 0
    case Rbi => if a.rbis != 0 then a.rbis else 0
  }

  /** The sum of a tally over a sequence of at-bats. */
  function Sum(s: seq<AtBat>, t: Tally): (r: int)
    ensures NonNegative(t) ==> r >= 0
  {
    if s == [] then 0 else Weight(s[0], t) + Sum(s[1..], t)
  }

  /** Outs recorded in one inning: the table value of each of its at-bats, summed. */
  function Outs(log: seq<AtBat>, inning: nat): (r: nat)
    ensures (forall i :: 0 <= i < |log| ==> log[i].inning != inning) ==> r == 0
    ensures r <= 2 * |log|
  {
    OutsBounds(log, inning);
    Sum(log, OutsIn(inning))
  }

  lemma {:induction false} OutsBounds(log: seq<AtBat>, inning: nat)
    ensures (forall i :: 0 <= i < |log| ==> log[i].inning != inning) ==> Sum(log, OutsIn(inning)) == 0
    ensures Sum(log, OutsIn(inning)) <= 2 * |log|
  {
    if log != [] {
      OutsBounds(log[1..], inning);
      if forall i :: 0 <= i < |log| ==> log[i].inning != inning {
        assert forall i :: 0 <= i < |log[1..]| ==> log[1..][i] == log[i + 1];
      }
    }
  }

  lemma {:induction false} SumAppend(s: seq<AtBat>, a: AtBat, t: Tally)
    ensures Sum(s + [a], t) == Sum(s, t) + Weight(a, t)
  {
    if s == [] {
      assert s + [a] == [a];
    } else {
      assert (s + [a])[1..] == s[1..] + [a];
      SumAppend(s[1..], a, t);
    }
  }

  lemma {:induction false} SumConcat(s: seq<AtBat>, u: seq<AtBat>, t: Tally)
    ensures Sum(s + u, t) == Sum(s, t) + Sum(u, t)
  {
    if s == [] {
      assert s + u == u;
    } else {
      assert (s + u)[1..] == s[1..] + u;
      SumConcat(s[1..], u, t);
    }
  }

  /** Deleting the at-bat at position i takes exactly its weight off the sum. */
  lemma SumRemove(s: seq<AtBat>, i: nat, t: Tally)
    requires i < |s|
    ensures Sum(s[..i] + s[i + 1..], t) == Sum(s, t) - Weight(s[i], t)
  {
    assert s == s[..i] + ([s[i]] + s[i + 1..]);
    SumConcat(s[..i], [s[i]] + s[i + 1..], t);
    SumConcat(s[..i], s[i + 1..], t);
    assert ([s[i]] + s[i + 1..])[1..] == s[i + 1..];
  }

  /** A tally every at-bat contributes 0 to sums to 0. */
  lemma {:induction false} SumOfZeros(s: seq<AtBat>, t: Tally)
    requires forall i :: 0 <= i < |s| ==> Weight(s[i], t) == 0
    ensures Sum(s, t) == 0
  {
    if s != [] {
      SumOfZeros(s[1..], t);
    }
  }

  /** Outs are monotone: appending at-bats to the log never lowers the count of any inning. */
  lemma OutsMonotone(log: seq<AtBat>, more: seq<AtBat>, inning: nat)
    ensures Outs(log + more, inning) >= Outs(log, inning)
    ensures (forall i :: 0 <= i < |more| ==> more[i].inning != inning) ==>
              Outs(log + more, inning) == Outs(log, inning)
  {
    SumConcat(log, more, OutsIn(inning));
    if forall i :: 0 <= i < |more| ==> more[i].inning != inning {
      SumOfZeros(more, OutsIn(inning));
    }
  }

  /** Per at-bat, and so over any log: home runs <= hits <= at-bats. */
  lemma {:induction false} HitTalliesOrdered(s: seq<AtBat>)
    ensures 0 <= Sum(s, HomeRuns) <= Sum(s, Hits) <= Sum(s, AtBatCount)
  {
    if s != [] {
      HitClassesNested(s[0].result);
      HitTalliesOrdered(s[1..]);
    }
  }

  /** Each at-bat counts at most once as an official at-bat. */
  lemma {:induction false} AtBatsAtMostLength(s: seq<AtBat>)
    ensures Sum(s, AtBatCount) <= |s|
  {
    if s != [] {
      AtBatsAtMostLength(s[1..]);
    }
  }

  /** While no at-bat carries a negative RBI value, the box score's RBI sum and
      the runs the team score takes agree. */
  lemma {:induction false} RbiSumsAgree(s: seq<AtBat>)
    requires forall i :: 0 <= i < |s| ==> s[i].rbis >= 0
    ensures Sum(s, Rbi) == Sum(s, PositiveRbi)
  {
    if s != [] {
      RbiSumsAgree(s[1..]);
    }
  }

  // ---------------------------------------------------------------------------
  // "Newest matching at-bat": filter, order by id descending, take the first.

  datatype Query =
    | InInning(inning: int)            // every at-bat of one inning
    | AtSlot(order: int, inning: int)  // the at-bats of one slot in one inning

  predicate Matches(a: AtBat, q: Query) {
    match q
    case InInning(k) => a.inning == k
    case AtSlot(o, k) => a.order == o && a.inning == k
  }

  /** Position of the matching at-bat with the highest id, if any. */
  function Newest(log: seq<AtBat>, q: Query): (r: Option<nat>)
    ensures r.Some? ==> r.value < |log| && Matches(log[r.value], q)
    ensures r.Some? ==> forall j :: 0 <= j < |log| && Matches(log[j], q) ==> log[j].id <= log[r.value].id
    ensures r.None? <==> forall j :: 0 <= j < |log| ==> !Matches(log[j], q)
  {
    if log == [] then None
    else
      var last := |log| - 1;
      var earlier := Newest(log[..last], q);
      if Matches(log[last], q) && (earlier.None? || log[earlier.value].id <= log[last].id)
      then Some(last)
      else earlier
  }

  /** An at-bat appended with a fresh id is the newest one for any query it matches. */
  lemma NewestIsAppended(log: seq<AtBat>, a: AtBat, q: Query)
    requires forall i :: 0 <= i < |log| ==> log[i].id < a.id
    requires Matches(a, q)
    ensures Newest(log + [a], q) == Some(|log|)
  {
    assert (log + [a])[..|log|] == log;
  }

  /** Removing one at-bat keeps the ids increasing. */
  lemma RemoveKeepsIdsIncreasing(log: seq<AtBat>, i: nat)
    requires IdsIncreasing(log) && i < |log|
    ensures IdsIncreasing(log[..i] + log[i + 1..])
  {
    var rest := log[..i] + log[i + 1..];
    forall p, q | 0 <= p < q < |rest|
      ensures rest[p].id < rest[q].id
    {
      var p' := if p < i then p else p + 1;
      var q' := if q < i then q else q + 1;
      assert rest[p] == log[p'] && rest[q] == log[q'];
    }
  }
}
