/** Building a batting order from the numbers entered next to each player
    (set_batting_order, app.py:91-104). */
module Lineup {
  import opened Options
  import opened AtBatLog

  /** One player's row of the form: the number typed next to the player, or
      None when the field was left empty. */
  datatype FormEntry = FormEntry(playerId: int, entered: Option<int>)

  /** The pair the source sorts: (entered number - 1, player id). */
  datatype Ranked = Ranked(rank: int, playerId: int)

  /** Tuple order on the pairs: by rank, then by player id. */
  predicate Le(a: Ranked, b: Ranked) {
    a.rank < b.rank || (a.rank == b.rank && a.playerId <= b.playerId)
  }

  ghost predicate Sorted(s: seq<Ranked>) {
    forall i, j :: 0 <= i < j < |s| ==> Le(s[i], s[j])
  }

  /** The pairs collected from the form, in form order; players with an empty field are skipped. */
  function Collected(entries: seq<FormEntry>): (r: seq<Ranked>)
    ensures |r| <= |entries|
    ensures forall p :: p in r ==>
              exists e :: e in entries && e.entered.Some? && p == Ranked(e.entered.value - 1, e.playerId)
  {
    if entries == [] then []
    else
      var init := entries[..|entries| - 1];
      var last := entries[|entries| - 1];
      assert forall e :: e in init ==> e in entries;
      assert last in entries;
      var c := Collected(init);
      var r := c + (if last.entered.Some? then [Ranked(last.entered.value - 1, last.playerId)] else []);
      assert forall p :: p in r ==> p in c || p == Ranked(last.entered.value - 1, last.playerId);
      r
  }

  function Insert(p: Ranked, s: seq<Ranked>): (r: seq<Ranked>)
    ensures |r| == |s| + 1
    ensures multiset(r) == multiset(s) + multiset{p}
  {
    if s == [] then [p]
    else if Le(p, s[0]) then [p] + s
    else
      assert s == [s[0]] + s[1..];
      [s[0]] + Insert(p, s[1..])
  }

  lemma {:induction false} InsertSorted(p: Ranked, s: seq<Ranked>)
    requires Sorted(s)
    ensures Sorted(Insert(p, s))
  {
    if s != [] && !Le(p, s[0]) {
      var tail := Insert(p, s[1..]);
      InsertSorted(p, s[1..]);
      forall x | x in tail
        ensures Le(s[0], x)
      {
        assert x in multiset(tail);
        if x != p {
          assert x in multiset(s[1..]);
          var k :| 0 <= k < |s[1..]| && s[1..][k] == x;
          assert s[k + 1] == x;
        }
      }
      var r := [s[0]] + tail;
      forall i, j | 0 <= i < j < |r|
        ensures Le(r[i], r[j])
      {
        if i == 0 {
          assert r[j] == tail[j - 1];
          assert r[j] in tail;
        } else {
          assert r[i] == tail[i - 1] && r[j] == tail[j - 1];
        }
      }
    }
  }

  /** The list sort the source applies to the collected pairs. */
  function Sort(s: seq<Ranked>): (r: seq<Ranked>)
    ensures |r| == |s|
    ensures Sorted(r)
    ensures multiset(r) == multiset(s)
  {
    if s == [] then []
    else
      assert s == [s[0]] + s[1..];
      var sorted := Sort(s[1..]);
      InsertSorted(s[0], sorted);
      Insert(s[0], sorted)
  }

  /** The new batting order: the collected pairs sorted, renumbered 0, 1, 2, ...
      Only the position in the sorted list survives; the typed numbers do not. */
  method BuildLineup(entries: seq<FormEntry>) returns (lineup: seq<Slot>)
    ensures Contiguous(lineup)
    ensures |lineup| == |Collected(entries)|
    ensures forall i :: 0 <= i < |lineup| ==> lineup[i].playerId == Sort(Collected(entries))[i].playerId
    ensures multiset(PlayerIds(lineup)) == multiset(EnteredIds(entries))
  {
    var batOrders: seq<Ranked> := [];
    for i := 0 to |entries|
      invariant batOrders == Collected(entries[..i])
    {
      assert entries[..i + 1][..i] == entries[..i];
      var e := entries[i];
      if e.entered.Some? {
        batOrders := batOrders + [Ranked(e.entered.value - 1, e.playerId)];
      }
    }
    assert entries[..|entries|] == entries;
    batOrders := Sort(batOrders);
    lineup := [];
    for idx := 0 to |batOrders|
      invariant |lineup| == idx
      invariant forall j :: 0 <= j < idx ==> lineup[j] == Slot(j, batOrders[j].playerId)
    {
      lineup := lineup + [Slot(idx, batOrders[idx].playerId)];
    }
    LineupIsPermutationOfEntries(entries, lineup);
  }

  /** The player ids of a lineup, slot by slot. */
  function PlayerIds(lineup: seq<Slot>): (r: seq<int>)
    ensures |r| == |lineup|
    ensures forall i :: 0 <= i < |lineup| ==> r[i] == lineup[i].playerId
  {
    if lineup == [] then [] else PlayerIds(lineup[..|lineup| - 1]) + [lineup[|lineup| - 1].playerId]
  }

  /** The player ids of the players whose field was filled in. */
  function EnteredIds(entries: seq<FormEntry>): seq<int> {
    if entries == [] then []
    else
      var last := entries[|entries| - 1];
      EnteredIds(entries[..|entries| - 1]) + (if last.entered.Some? then [last.playerId] else [])
  }

  /** Proof helper: the player ids of a list of pairs, before they become slots. */
  ghost function RankedIds(s: seq<Ranked>): seq<int> {
    seq(|s|, i requires 0 <= i < |s| => s[i].playerId)
  }

  lemma {:induction false} CollectedIds(entries: seq<FormEntry>)
    ensures RankedIds(Collected(entries)) == EnteredIds(entries)
  {
    if entries != [] {
      var init := entries[..|entries| - 1];
      CollectedIds(init);
      var c := Collected(init);
      var last := entries[|entries| - 1];
      if last.entered.Some? {
        var p := Ranked(last.entered.value - 1, last.playerId);
        assert (c + [p])[..|c|] == c;
      }
    }
  }

  lemma {:induction false} RankedIdsMultiset(s: seq<Ranked>, u: seq<Ranked>)
    requires multiset(s) == multiset(u)
    ensures multiset(RankedIds(s)) == multiset(RankedIds(u))
    decreases |s|
  {
    if s != [] {
      var x := s[|s| - 1];
      assert x in multiset(u);
      var k :| 0 <= k < |u| && u[k] == x;
      var s' := s[..|s| - 1];
      var u' := u[..k] + u[k + 1..];
      assert s == s' + [x];
      assert u == u[..k] + [x] + u[k + 1..];
      assert multiset(s) == multiset(s') + multiset{x};
      assert multiset(u) == multiset(u[..k]) + multiset{x} + multiset(u[k + 1..]);
      assert multiset(u') == multiset(u[..k]) + multiset(u[k + 1..]);
      assert multiset(s') == multiset(s) - multiset{x};
      assert multiset(u') == multiset(u) - multiset{x};
      RankedIdsMultiset(s', u');
      assert RankedIds(s) == RankedIds(s') + [x.playerId];
      RankedIdsSplit(u[..k], x, u[k + 1..]);
    }
  }

  lemma RankedIdsSplit(a: seq<Ranked>, x: Ranked, b: seq<Ranked>)
    ensures multiset(RankedIds(a + [x] + b)) == multiset(RankedIds(a + b)) + multiset{x.playerId}
  {
    var r := RankedIds(a + [x] + b);
    var r' := RankedIds(a + b);
    assert r == r'[..|a|] + [x.playerId] + r'[|a|..];
    assert r' == r'[..|a|] + r'[|a|..];
  }

  /** Setting the order loses and invents no one: the new lineup holds exactly the
      players whose field was filled in, each as often as it was entered. */
  lemma LineupIsPermutationOfEntries(entries: seq<FormEntry>, lineup: seq<Slot>)
    requires |lineup| == |Collected(entries)|
    requires forall i :: 0 <= i < |lineup| ==> lineup[i].playerId == Sort(Collected(entries))[i].playerId
    ensures multiset(PlayerIds(lineup)) == multiset(EnteredIds(entries))
  {
    var c := Collected(entries);
    assert PlayerIds(lineup) == RankedIds(Sort(c));
    RankedIdsMultiset(Sort(c), c);
    CollectedIds(entries);
  }
}
