/** One game's scoresheet as the route handlers change it: the at-bat log, the
    batting order and the team score (app.py:40, app.py:86-216). */
module Scorebook {
  import opened Options
  import opened Results
  import opened AtBatLog
  import opened Innings
  import opened Lineup

  /** The screen the engine sends the scorer to next: a slot and an inning. */
  datatype Position = Position(order: int, inning: nat)

  /** What recording an at-bat answers: the lineup is not set yet (nothing is
      recorded), or the position to go on with. */
  datatype RecordOutcome = LineupNotSet | Recorded(next: Position)

  /** The nullable team score read as a number: a missing score counts as 0. */
  function ScoreValue(score: Option<int>): int {
    if score.Some? then score.value else 0
  }

  /** Clamps a requested slot: past the end goes to the last slot, below zero to
      slot 0; with no slot at all the answer is 0. */
  function ClampSlot(order: int, total: nat): (r: nat)
    ensures total > 0 ==> r < total
    ensures 0 <= order < total ==> r == order
    ensures total > 0 && order >= total ==> r == total - 1
    ensures total > 0 && order < 0 ==> r == 0
    ensures total == 0 ==> r == 0
  {
    var o := if order >= total then total - 1 else order;
    if o < 0 then 0 else o
  }

  /** The slot to bat when none is requested: the one after the slot of the
      newest at-bat of the previous inning, wrapping around the lineup; slot 0 in
      the first inning or when the previous inning has no at-bat. */
  function DefaultSlot(log: seq<AtBat>, inning: nat, total: nat): (r: int)
    requires total > 0
    ensures 0 <= r < total
    ensures inning <= 1 || Newest(log, InInning(inning - 1)).None? ==> r == 0
  {
    if inning > 1 then
      match Newest(log, InInning(inning - 1))
      case Some(i) => (log[i].order + 1) % total
      case None => 0
    else 0
  }

  /** The slot undo goes back to: the one before `order`, or the last slot when
      `order` is 0 (-1 when there is no lineup). */
  function PreviousSlot(order: nat, total: nat): (r: int)
    ensures order > 0 ==> r == order - 1 && r < order
    ensures order == 0 ==> r == total - 1
    ensures order <= total ==> -1 <= r < total
  {
    if order > 0 then order - 1 else total - 1
  }

  /** The inning record_atbat records in: the requested one, else the current one. */
  function RecordInning(log: seq<AtBat>, inning: Option<nat>): (r: nat)
    ensures inning.Some? ==> r == inning.value
    ensures inning.None? && log == [] ==> r == 1
    ensures inning.None? ==> forall i :: 0 <= i < |log| ==> log[i].inning <= r
  {
    if inning.Some? then inning.value else CurrentInningOf(log)
  }

  /** The slot record_atbat bats: the requested one, else the default one, clamped
      into a lineup of `total` slots. */
  function RecordSlot(log: seq<AtBat>, order: Option<int>, inn: nat, total: nat): (r: nat)
    requires total > 0
    ensures r < total
  {
    ClampSlot(if order.Some? then order.value else DefaultSlot(log, inn, total), total)
  }

  /** The slot after `slot`, wrapping around a lineup of `total` slots. */
  function NextSlot(slot: nat, total: nat): (r: nat)
    requires slot < total
    ensures r < total
    ensures slot + 1 < total ==> r == slot + 1
    ensures slot + 1 == total ==> r == 0
  {
    (slot + 1) % total
  }

  class Game {
    var atBats: seq<AtBat>
    var nextId: nat
    var lineup: seq<Slot>
    var teamScore: Option<int>

    /** The store keeps ids fresh and in log order, slot numbers come from the
        lineup, the lineup is numbered 0..n-1, and the team score is the sum of
        the positive RBI values of the logged at-bats. */
    ghost predicate Valid()
      reads this
      ensures Valid() ==> ScoreValue(teamScore) >= 0
      ensures Valid() ==> forall i :: 0 <= i < |atBats| ==> atBats[i].id < nextId
      ensures Valid() ==> forall i :: 0 <= i < |lineup| ==> lineup[i].order == i
    {
      SheetValid(atBats, nextId, lineup, teamScore)
    }

    /** A new game (add_game): no at-bats, no lineup, score 0. */
    constructor (firstId: nat)
      ensures Valid()
      ensures atBats == [] && lineup == [] && teamScore == Some(0) && nextId == firstId
    {
      atBats := [];
      nextId := firstId;
      lineup := [];
      teamScore := Some(0);
    }

    /** set_batting_order: the lineup built from the form replaces the old one
        entirely; the log and the score are untouched. The scorer goes on at
        slot 0 of inning 1. */
    method SetBattingOrder(entries: seq<FormEntry>) returns (next: Position)
      requires Valid()
      modifies this
      ensures Valid()
      ensures |lineup| == |Collected(entries)|
      ensures forall i :: 0 <= i < |lineup| ==>
                lineup[i] == Slot(i, Sort(Collected(entries))[i].playerId)
      ensures multiset(PlayerIds(lineup)) == multiset(EnteredIds(entries))
      ensures atBats == old(atBats) && nextId == old(nextId) && teamScore == old(teamScore)
      ensures next == Position(0, 1)
    {
      lineup := BuildLineup(entries);
      next := Position(0, 1);
    }

    /** record_atbat (POST). With no lineup nothing changes. Otherwise the inning
        is the requested one or the current one, the slot is the requested one or
        the default one, clamped into the lineup; one at-bat is appended for that
        slot's player, positive RBIs are added to the score, and the next position
        is the following slot, in the next inning once the inning has 3 outs. */
    method RecordAtBat(order: Option<int>, inning: Option<nat>, code: string, rbis: int,
                       position: string, note: string)
      returns (outcome: RecordOutcome)
      requires Valid()
      modifies this
      ensures Valid()
      ensures lineup == old(lineup)
      ensures nextId == old(nextId) + (if |lineup| > 0 then 1 else 0)
      ensures |lineup| == 0 ==>
                outcome == LineupNotSet && atBats == old(atBats) && teamScore == old(teamScore)
      ensures |lineup| > 0 ==>
                var inn := RecordInning(old(atBats), inning);
                var slot := RecordSlot(old(atBats), order, inn, |lineup|);
                atBats == old(atBats) + [AtBat(old(nextId), lineup[slot].playerId, slot,
                                               FromCode(code), inn, rbis, position, note)]
      ensures |lineup| > 0 ==>
                teamScore == (if rbis > 0 then Some(ScoreValue(old(teamScore)) + rbis) else old(teamScore))
      ensures |lineup| > 0 ==>
                var inn := RecordInning(old(atBats), inning);
                Outs(atBats, inn) >= Outs(old(atBats), inn)
      ensures |lineup| > 0 ==>
                var inn := RecordInning(old(atBats), inning);
                var slot := RecordSlot(old(atBats), order, inn, |lineup|);
                outcome == Recorded(Position(NextSlot(slot, |lineup|),
                                             if Outs(atBats, inn) >= 3 then inn + 1 else inn))
    {
      var total := |lineup|;
      var inn: nat;
      if inning.Some? {
        inn := inning.value;
      } else {
        inn := CurrentInning(atBats);
      }
      if total == 0 {
        return LineupNotSet;
      }
      var slot := ChooseSlot(order, inn);
      assert inn == RecordInning(old(atBats), inning) && slot == RecordSlot(old(atBats), order, inn, total);
      var batter := lineup[slot];
      assert batter.order == slot;
      var atBat := AtBat(nextId, batter.playerId, batter.order, FromCode(code), inn, rbis, position, note);
      OutsMonotone(atBats, [atBat], inn);
      Append(atBat);
      var outs := Outs(atBats, inn);
      var nextOrder := NextSlot(slot, total);
      if outs >= 3 {
        outcome := Recorded(Position(nextOrder, inn + 1));
      } else {
        outcome := Recorded(Position(nextOrder, inn));
      }
    }

    /** Stores one at-bat under the next id; positive RBIs are added to the
        score, a missing score counting as 0. */
    method Append(atBat: AtBat)
      requires Valid() && atBat.id == nextId && atBat.order >= 0
      modifies this
      ensures Valid()
      ensures atBats == old(atBats) + [atBat] && nextId == old(nextId) + 1 && lineup == old(lineup)
      ensures teamScore == if atBat.rbis > 0 then Some(ScoreValue(old(teamScore)) + atBat.rbis) else old(teamScore)
    {
      AppendKeepsSheetValid(atBats, nextId, lineup, teamScore, atBat);
      atBats := atBats + [atBat];
      nextId := nextId + 1;
      if atBat.rbis > 0 {
        teamScore := Some(ScoreValue(teamScore) + atBat.rbis);
      }
    }

    /** The slot record_atbat bats, chosen step by step as the handler does: the
        requested one, or the default one when none is requested, clamped into
        the lineup. `RecordSlot` is its specification. */
    method ChooseSlot(order: Option<int>, inn: nat) returns (slot: nat)
      requires |lineup| > 0
      ensures slot == RecordSlot(atBats, order, inn, |lineup|)
    {
      var total := |lineup|;
      var requested: int;
      if order.Some? {
        requested := order.value;
      } else if inn > 1 {
        var lastPrev := Newest(atBats, InInning(inn - 1));
        if lastPrev.Some? {
          requested := (atBats[lastPrev.value].order + 1) % total;
        } else {
          requested := 0;
        }
      } else {
        requested := 0;
      }
      if requested >= total {
        requested := total - 1;
      }
      if requested < 0 {
        requested := 0;
      }
      slot := requested;
    }

    /** undo_atbat: deletes the newest at-bat of slot `order` in `inning`, if
        there is one; a positive RBI value comes off a non-zero score, floored at
        0. Either way the scorer goes back to the previous slot of that inning. */
    method UndoAtBat(order: nat, inning: nat) returns (back: Position)
      requires Valid()
      modifies this
      ensures Valid()
      ensures lineup == old(lineup) && nextId == old(nextId)
      ensures back == Position(PreviousSlot(order, |lineup|), inning)
      ensures Newest(old(atBats), AtSlot(order, inning)).None? ==>
                atBats == old(atBats) && teamScore == old(teamScore)
      ensures Newest(old(atBats), AtSlot(order, inning)).Some? ==>
                var i := Newest(old(atBats), AtSlot(order, inning)).value;
                var gone := old(atBats)[i];
                && atBats == old(atBats)[..i] + old(atBats)[i + 1..]
                && teamScore == (if gone.rbis > 0 && ScoreValue(old(teamScore)) != 0
                                 then Some(if ScoreValue(old(teamScore)) - gone.rbis > 0
                                           then ScoreValue(old(teamScore)) - gone.rbis else 0)
                                 else old(teamScore))
                && ScoreValue(teamScore) == ScoreValue(old(teamScore)) - Weight(gone, PositiveRbi)
    {
      var found := Newest(atBats, AtSlot(order, inning));
      if found.Some? {
        var i := found.value;
        var atBat := atBats[i];
        RemoveKeepsSheetValid(atBats, nextId, lineup, teamScore, i);
        if atBat.rbis > 0 && ScoreValue(teamScore) != 0 {
          var lowered := ScoreValue(teamScore) - atBat.rbis;
          teamScore := Some(if lowered > 0 then lowered else 0);
        }
        atBats := atBats[..i] + atBats[i + 1..];
        back := Position(PreviousSlot(order, |lineup|), inning);
      } else {
        back := Position(PreviousSlot(order, |lineup|), inning);
      }
    }

    /** switch_player (POST): the slot is clamped into the lineup (default 0) and
        the row with that slot number, if any, gets the new player; nothing else
        changes. The scorer goes on at that slot in the current inning. */
    method SwitchPlayer(order: Option<int>, newPlayer: int) returns (next: Position)
      requires Valid()
      modifies this
      ensures Valid()
      ensures atBats == old(atBats) && nextId == old(nextId) && teamScore == old(teamScore)
      ensures var slot := ClampSlot(if order.Some? then order.value else 0, |old(lineup)|);
              && |lineup| == |old(lineup)|
              && (slot < |lineup| ==> lineup == old(lineup)[slot := Slot(slot, newPlayer)])
              && (slot >= |lineup| ==> lineup == old(lineup))
              && next == Position(slot, CurrentInningOf(atBats))
    {
      var requested := if order.Some? then order.value else 0;
      var slot := requested;
      if slot >= |lineup| {
        slot := |lineup| - 1;
      }
      if slot < 0 {
        slot := 0;
      }
      var row := SlotRow(lineup, slot);
      if row.Some? {
        lineup := lineup[row.value := lineup[row.value].(playerId := newPlayer)];
      }
      var inn := CurrentInning(atBats);
      next := Position(slot, inn);
    }
  }

  /** What the store guarantees of a game's log: ids in log order and below the
      next fresh id, and slot numbers that are not negative. */
  ghost predicate LogWellFormed(log: seq<AtBat>, nextId: nat) {
    && IdsIncreasing(log)
    && (forall i :: 0 <= i < |log| ==> log[i].id < nextId)
    && (forall i :: 0 <= i < |log| ==> log[i].order >= 0)
  }

  /** The game's invariant over its four parts; see Game.Valid. */
  ghost predicate SheetValid(log: seq<AtBat>, nextId: nat, lineup: seq<Slot>, score: Option<int>) {
    && LogWellFormed(log, nextId)
    && Contiguous(lineup)
    && ScoreValue(score) == Sum(log, PositiveRbi)
  }

  /** Recording keeps the invariant: the new at-bat takes the fresh id, and the
      score takes its positive RBIs. */
  lemma AppendKeepsSheetValid(log: seq<AtBat>, nextId: nat, lineup: seq<Slot>, score: Option<int>, a: AtBat)
    requires SheetValid(log, nextId, lineup, score)
    requires a.id == nextId && a.order >= 0
    ensures SheetValid(log + [a], nextId + 1, lineup,
                       if a.rbis > 0 then Some(ScoreValue(score) + a.rbis) else score)
  {
    AppendKeepsLogWellFormed(log, nextId, a);
    SumAppend(log, a, PositiveRbi);
  }

  /** Undo keeps the invariant: the deleted at-bat's positive RBIs never exceed the
      score, so the floor at 0 never bites and the score stays the sum. */
  lemma RemoveKeepsSheetValid(log: seq<AtBat>, nextId: nat, lineup: seq<Slot>, score: Option<int>, i: nat)
    requires SheetValid(log, nextId, lineup, score) && i < |log|
    ensures Weight(log[i], PositiveRbi) <= ScoreValue(score)
    ensures var gone := log[i];
            SheetValid(log[..i] + log[i + 1..], nextId, lineup,
                       if gone.rbis > 0 && ScoreValue(score) != 0
                       then Some(if ScoreValue(score) - gone.rbis > 0 then ScoreValue(score) - gone.rbis else 0)
                       else score)
  {
    RemoveKeepsLogWellFormed(log, nextId, i);
    SumRemove(log, i, PositiveRbi);
  }

  lemma AppendKeepsLogWellFormed(log: seq<AtBat>, nextId: nat, a: AtBat)
    requires LogWellFormed(log, nextId)
    requires a.id == nextId && a.order >= 0
    ensures LogWellFormed(log + [a], nextId + 1)
  {
  }

  lemma RemoveKeepsLogWellFormed(log: seq<AtBat>, nextId: nat, i: nat)
    requires LogWellFormed(log, nextId) && i < |log|
    ensures LogWellFormed(log[..i] + log[i + 1..], nextId)
  {
    RemoveKeepsIdsIncreasing(log, i);
    var rest := log[..i] + log[i + 1..];
    forall p | 0 <= p < |rest|
      ensures rest[p].id < nextId && rest[p].order >= 0
    {
      assert rest[p] == log[if p < i then p else p + 1];
    }
  }

  /** The first batting-order row with slot number `order`, if any. */
  function SlotRow(lineup: seq<Slot>, order: int): (r: Option<nat>)
    ensures r.Some? ==> r.value < |lineup| && lineup[r.value].order == order
    ensures r.Some? ==> forall j :: 0 <= j < r.value ==> lineup[j].order != order
    ensures r.None? <==> forall j :: 0 <= j < |lineup| ==> lineup[j].order != order
  {
    if lineup == [] then None
    else if lineup[0].order == order then Some(0)
    else
      match SlotRow(lineup[1..], order)
      case Some(i) => Some(i + 1)
      case None => None
  }

  /** In a numbered lineup the row of slot k is the k-th row. */
  lemma SlotRowOfContiguous(lineup: seq<Slot>, order: int)
    requires Contiguous(lineup)
    ensures 0 <= order < |lineup| ==> SlotRow(lineup, order) == Some(order)
    ensures !(0 <= order < |lineup|) ==> SlotRow(lineup, order) == None
  {
    if 0 <= order < |lineup| {
      assert lineup[order].order == order;
    }
    var r := SlotRow(lineup, order);
    if r.Some? {
      assert lineup[r.value].order == r.value;
    }
  }

  /** Undo is a left inverse of record: the newest at-bat of the recorded slot and
      inning is the one just recorded, so deleting it gives back the log, and the
      score returns to what it was. */
  lemma UndoAfterRecord(log: seq<AtBat>, a: AtBat, score: Option<int>)
    requires forall i :: 0 <= i < |log| ==> log[i].id < a.id
    requires ScoreValue(score) >= 0
    ensures Newest(log + [a], AtSlot(a.order, a.inning)) == Some(|log|)
    ensures (log + [a])[..|log|] + (log + [a])[|log| + 1..] == log
    ensures var recorded := if a.rbis > 0 then Some(ScoreValue(score) + a.rbis) else score;
            var undone := if a.rbis > 0 && ScoreValue(recorded) != 0
                          then Some(if ScoreValue(recorded) - a.rbis > 0
                                    then ScoreValue(recorded) - a.rbis else 0)
                          else recorded;
            ScoreValue(undone) == ScoreValue(score)
  {
    NewestIsAppended(log, a, AtSlot(a.order, a.inning));
    assert (log + [a])[..|log|] == log;
  }
}

/** Recording an at-bat and then undoing the slot and inning it was recorded
    under gives back the log and the score the game had before. */
module ScorebookClient {
  import opened Options
  import opened AtBatLog
  import opened Scorebook

  method RecordThenUndo(g: Game, order: Option<int>, inning: Option<nat>, code: string, rbis: int,
                        position: string, note: string)
    requires g.Valid() && |g.lineup| > 0
    modifies g
    ensures g.Valid()
    ensures g.atBats == old(g.atBats)
    ensures ScoreValue(g.teamScore) == old(ScoreValue(g.teamScore))
    ensures g.lineup == old(g.lineup)
  {
    var log := g.atBats;
    var outcome := g.RecordAtBat(order, inning, code, rbis, position, note);
    var recorded := g.atBats[|g.atBats| - 1];
    UndoAfterRecord(log, recorded, old(g.teamScore));
    var back := g.UndoAtBat(recorded.order, recorded.inning);
  }
}
