/** The box score of a game: one row per (slot, player, note, position), with the
    results of each inning and the at-bat, hit, home-run and RBI counts, plus a
    totals row (get_stats_table, app.py:218-250). */
module BoxScore {
  import opened Options
  import opened Results
  import opened AtBatLog
  import opened Innings

  /** The grouping key of a box-score row. */
  datatype GroupKey = GroupKey(order: int, playerId: int, note: string, position: string)

  /** One box-score row: its key, one result cell per inning column, and its counts. */
  datatype Group = Group(
    order: int,
    playerId: int,
    note: string,
    position: string,
    results: seq<string>,
    ab: int,
    hit: int,
    hr: int,
    rbi: int)

  datatype Totals = Totals(ab: int, hit: int, hr: int, rbi: int)

  /** The rows in first-appearance order, the number of inning columns, and the totals. */
  datatype Stats = Stats(groups: seq<Group>, maxInning: nat, total: Totals)

  function KeyOf(a: AtBat): GroupKey {
    GroupKey(a.order, a.playerId, a.note, a.position)
  }

  /** List indexing as the source language does it: a negative index counts from
      the end, and an index outside the list is an error (None). */
  function PyIndex(i: int, n: nat): (r: Option<nat>)
    ensures r.Some? ==> r.value < n
    ensures 0 <= i < n ==> r == Some(i)
    ensures i < 0 && r.Some? ==> r.value == n + i
    ensures r.None? <==> (i >= n || i + n < 0)
  {
    if 0 <= i < n then Some(i) else if 0 <= i + n && i < 0 then Some(n + i) else None
  }

  /** The column an at-bat's result goes to: its inning minus one. Inning 0
      wraps round to the last column, and an inning past the last column has none. */
  function Column(a: AtBat, n: nat): (r: Option<nat>)
    ensures r.Some? ==> r.value < n
    ensures 1 <= a.inning <= n ==> r == Some(a.inning - 1)
    ensures a.inning == 0 ==> r == (if n > 0 then Some(n - 1) else None)
    ensures a.inning > n ==> r == None
  {
    PyIndex(a.inning - 1, n)
  }

  /** The number of inning columns: the highest inning logged, or 9 for an empty log. */
  function ColumnCount(log: seq<AtBat>): (n: nat)
    ensures log == [] ==> n == 9
    ensures forall i :: 0 <= i < |log| ==> log[i].inning <= n
    ensures log != [] ==> exists i :: 0 <= i < |log| && log[i].inning == n
  {
    if log == [] then 9 else MaxInning(log)
  }

  /** Every at-bat's column exists, so the table can be built without an index error. */
  predicate Indexable(log: seq<AtBat>, n: nat) {
    forall i :: 0 <= i < |log| ==> Column(log[i], n).Some?
  }

  /** Only a log whose every at-bat is in inning 0 has no column for its at-bats. */
  lemma IndexableUnlessAllInningZero(log: seq<AtBat>)
    ensures Indexable(log, ColumnCount(log)) <==> (log == [] || ColumnCount(log) >= 1)
  {
    var n := ColumnCount(log);
    if log != [] && n == 0 {
      assert Column(log[0], n).None?;
    }
  }

  /** The at-bats of one row, in log order. */
  function Filter(log: seq<AtBat>, k: GroupKey): (r: seq<AtBat>)
    ensures |r| <= |log|
  {
    if log == [] then []
    else
      var last := log[|log| - 1];
      Filter(log[..|log| - 1], k) + (if KeyOf(last) == k then [last] else [])
  }

  /** A row holds exactly the at-bats of the log that carry its key. */
  lemma {:induction false} FilterMembers(log: seq<AtBat>, k: GroupKey)
    ensures forall a :: a in Filter(log, k) <==> a in log && KeyOf(a) == k
  {
    if log != [] {
      FilterMembers(log[..|log| - 1], k);
      assert log == log[..|log| - 1] + [log[|log| - 1]];
    }
  }

  /** The row keys, each once, in the order of their first at-bat. */
  function KeysInOrder(log: seq<AtBat>): (r: seq<GroupKey>)
    ensures forall i, j :: 0 <= i < j < |r| ==> r[i] != r[j]
  {
    if log == [] then []
    else
      var keys := KeysInOrder(log[..|log| - 1]);
      var key := KeyOf(log[|log| - 1]);
      if key in keys then keys else keys + [key]
  }

  /** A key is listed exactly when some at-bat of the log carries it, that is,
      exactly when its row's at-bats are not empty. */
  lemma {:induction false} KeyListed(log: seq<AtBat>, k: GroupKey)
    ensures k in KeysInOrder(log) <==> exists q :: 0 <= q < |log| && KeyOf(log[q]) == k
    ensures k in KeysInOrder(log) <==> Filter(log, k) != []
  {
    if log != [] {
      var s := log[..|log| - 1];
      KeyListed(s, k);
      if exists q :: 0 <= q < |s| && KeyOf(s[q]) == k {
        var q :| 0 <= q < |s| && KeyOf(s[q]) == k;
        assert KeyOf(log[q]) == k;
      }
      if exists q :: 0 <= q < |log| && KeyOf(log[q]) == k {
        var q :| 0 <= q < |log| && KeyOf(log[q]) == k;
        if q < |s| {
          assert KeyOf(s[q]) == k;
        }
      }
    }
  }

  /** The keys are listed in order of first appearance: every at-bat carrying
      the j-th key comes after some at-bat carrying an earlier key. */
  lemma {:induction false} KeysInFirstAppearanceOrder(log: seq<AtBat>, i: nat, j: nat, q: nat)
    requires i < j < |KeysInOrder(log)|
    requires q < |log| && KeyOf(log[q]) == KeysInOrder(log)[j]
    ensures exists p :: 0 <= p < q && KeyOf(log[p]) == KeysInOrder(log)[i]
  {
    var s := log[..|log| - 1];
    var keys := KeysInOrder(log);
    var ks := KeysInOrder(s);
    var last := KeyOf(log[|log| - 1]);
    assert keys == if last in ks then ks else ks + [last];
    if q < |s| {
      assert KeyOf(s[q]) == keys[j];
      KeyListed(s, keys[j]);
      assert j < |ks|;
      KeysInFirstAppearanceOrder(s, i, j, q);
      var p :| 0 <= p < q && KeyOf(s[p]) == ks[i];
      assert KeyOf(log[p]) == keys[i];
    } else if last in ks {
      KeyListed(s, keys[j]);
      var q' :| 0 <= q' < |s| && KeyOf(s[q']) == ks[j];
      KeysInFirstAppearanceOrder(s, i, j, q');
      var p :| 0 <= p < q' && KeyOf(s[p]) == ks[i];
      assert KeyOf(log[p]) == keys[i];
    } else {
      assert ks[i] in ks;
      KeyListed(s, ks[i]);
      var p :| 0 <= p < |s| && KeyOf(s[p]) == ks[i];
      assert KeyOf(log[p]) == keys[i];
    }
  }

  /** Adds one result to a cell: separated by "/" from what the cell already holds. */
  function AppendCode(cell: string, code: string): (r: string)
    ensures |r| == |cell| + |code| + (if cell == "" then 0 else 1)
    ensures r[..|cell|] == cell && r[|r| - |code|..] == code
    ensures cell != "" ==> r[|cell|] == '/'
  {
    cell + (if cell != "" then "/" else "") + code
  }

  /** A cell after its results are added one by one, in log order. */
  function Cell(codes: seq<string>): string {
    if codes == [] then "" else AppendCode(Cell(codes[..|codes| - 1]), codes[|codes| - 1])
  }

  /** The results of the at-bats that go to column `col`, in log order. */
  function CodesIn(s: seq<AtBat>, col: nat, n: nat): (r: seq<string>)
    ensures forall a :: a in s && Column(a, n) == Some(col) ==> Code(a.result) in r
    ensures |r| <= |s|
  {
    if s == [] then []
    else
      var last := s[|s| - 1];
      CodesIn(s[..|s| - 1], col, n) + (if Column(last, n) == Some(col) then [Code(last.result)] else [])
  }

  /** The n result cells of a row's at-bats. */
  function Cells(f: seq<AtBat>, n: nat): (r: seq<string>)
    ensures |r| == n
  {
    seq(n, c requires 0 <= c < n => Cell(CodesIn(f, c, n)))
  }

  /** The row of key k over a log, with n inning columns. */
  function GroupOf(log: seq<AtBat>, k: GroupKey, n: nat): (g: Group)
    ensures GroupKey(g.order, g.playerId, g.note, g.position) == k
    ensures |g.results| == n
    ensures 0 <= g.hr <= g.hit <= g.ab <= |Filter(log, k)|
  {
    var f := Filter(log, k);
    HitTalliesOrdered(f);
    AtBatsAtMostLength(f);
    Group(k.order, k.playerId, k.note, k.position, Cells(f, n),
          Sum(f, AtBatCount), Sum(f, Hits), Sum(f, HomeRuns), Sum(f, Rbi))
  }

  /** The box score of a log; None where the source raises an index error. */
  function StatsOf(log: seq<AtBat>): Option<Stats> {
    var n := ColumnCount(log);
    if !Indexable(log, n) then None
    else
      var keys := KeysInOrder(log);
      Some(Stats(seq(|keys|, i requires 0 <= i < |keys| => GroupOf(log, keys[i], n)), n,
                 Totals(Sum(log, AtBatCount), Sum(log, Hits), Sum(log, HomeRuns), Sum(log, Rbi))))
  }

  // ---------------------------------------------------------------------------
  // The loop of get_stats_table.

  lemma FilterAppend(s: seq<AtBat>, a: AtBat, k: GroupKey)
    ensures Filter(s + [a], k) == Filter(s, k) + (if KeyOf(a) == k then [a] else [])
  {
    assert (s + [a])[..|s|] == s;
  }

  lemma CodesInAppend(s: seq<AtBat>, a: AtBat, col: nat, n: nat)
    ensures CodesIn(s + [a], col, n) ==
              CodesIn(s, col, n) + (if Column(a, n) == Some(col) then [Code(a.result)] else [])
  {
    assert (s + [a])[..|s|] == s;
  }

  lemma CellAppend(codes: seq<string>, code: string)
    ensures Cell(codes + [code]) == AppendCode(Cell(codes), code)
  {
    assert (codes + [code])[..|codes|] == codes;
  }

  /** A row after one more of its at-bats: the result added to the at-bat's column,
      the counts raised by the at-bat's weights. */
  function Added(g: Group, a: AtBat, col: nat): Group
    requires col < |g.results|
  {
    g.(results := g.results[col := AppendCode(g.results[col], Code(a.result))],
       ab := g.ab + Weight(a, AtBatCount),
       hit := g.hit + Weight(a, Hits),
       hr := g.hr + Weight(a, HomeRuns),
       rbi := g.rbi + Weight(a, Rbi))
  }

  lemma CellsAppend(f: seq<AtBat>, a: AtBat, n: nat)
    requires Column(a, n).Some?
    ensures var col := Column(a, n).value;
            Cells(f + [a], n) == Cells(f, n)[col := AppendCode(Cells(f, n)[col], Code(a.result))]
  {
    var col := Column(a, n).value;
    forall c | 0 <= c < n
      ensures Cells(f + [a], n)[c] == Cells(f, n)[col := AppendCode(Cells(f, n)[col], Code(a.result))][c]
    {
      CodesInAppend(f, a, c, n);
      if c == col {
        CellAppend(CodesIn(f, c, n), Code(a.result));
      } else {
        assert CodesIn(f + [a], c, n) == CodesIn(f, c, n);
      }
    }
  }

  /** How one more at-bat changes a row: only its own row, in its own column and counts. */
  lemma GroupOfAppend(s: seq<AtBat>, a: AtBat, k: GroupKey, n: nat)
    requires Column(a, n).Some?
    ensures KeyOf(a) != k ==> GroupOf(s + [a], k, n) == GroupOf(s, k, n)
    ensures KeyOf(a) == k ==> GroupOf(s + [a], k, n) == Added(GroupOf(s, k, n), a, Column(a, n).value)
  {
    if KeyOf(a) == k {
      GroupOfAppendOwn(s, a, n);
    } else {
      FilterAppend(s, a, k);
      assert Filter(s + [a], k) == Filter(s, k);
    }
  }

  lemma GroupOfAppendOwn(s: seq<AtBat>, a: AtBat, n: nat)
    requires Column(a, n).Some?
    ensures GroupOf(s + [a], KeyOf(a), n) == Added(GroupOf(s, KeyOf(a), n), a, Column(a, n).value)
  {
    var f := Filter(s, KeyOf(a));
    FilterAppend(s, a, KeyOf(a));
    assert Filter(s + [a], KeyOf(a)) == f + [a];
    SumAppend(f, a, AtBatCount);
    SumAppend(f, a, Hits);
    SumAppend(f, a, HomeRuns);
    SumAppend(f, a, Rbi);
    CellsAppend(f, a, n);
    var g, g' := GroupOf(s, KeyOf(a), n), GroupOf(s + [a], KeyOf(a), n);
    assert g'.results == Cells(f + [a], n);
    assert g'.ab == g.ab + Weight(a, AtBatCount) && g'.hit == g.hit + Weight(a, Hits);
    assert g'.hr == g.hr + Weight(a, HomeRuns) && g'.rbi == g.rbi + Weight(a, Rbi);
  }

  /** The rows built so far are the rows of the log read so far. */
  ghost predicate RowsOf(groups: map<GroupKey, Group>, s: seq<AtBat>, n: nat) {
    forall k :: k in groups ==> groups[k] == GroupOf(s, k, n)
  }

  lemma RowsStep(groups: map<GroupKey, Group>, s: seq<AtBat>, a: AtBat, n: nat)
    requires RowsOf(groups, s, n)
    requires KeyOf(a) in groups && Column(a, n).Some?
    ensures |groups[KeyOf(a)].results| == n
    ensures RowsOf(groups[KeyOf(a) := Added(groups[KeyOf(a)], a, Column(a, n).value)], s + [a], n)
  {
    var key := KeyOf(a);
    var groups' := groups[key := Added(groups[key], a, Column(a, n).value)];
    forall k | k in groups'
      ensures groups'[k] == GroupOf(s + [a], k, n)
    {
      GroupOfAppend(s, a, k, n);
    }
  }

  lemma KeysInOrderAppend(s: seq<AtBat>, a: AtBat)
    ensures KeysInOrder(s + [a]) ==
              if KeyOf(a) in KeysInOrder(s) then KeysInOrder(s) else KeysInOrder(s) + [KeyOf(a)]
  {
    assert (s + [a])[..|s|] == s;
  }

  /** A fresh row: its key, n empty cells and zero counts. */
  function NewGroup(k: GroupKey, n: nat): Group {
    Group(k.order, k.playerId, k.note, k.position, seq(n, _ => ""), 0, 0, 0, 0)
  }

  /** A key with no at-bat yet has the fresh row. */
  lemma GroupOfNewKey(s: seq<AtBat>, k: GroupKey, n: nat)
    requires k !in KeysInOrder(s)
    ensures GroupOf(s, k, n) == NewGroup(k, n)
  {
    KeyListed(s, k);
    assert Cells([], n) == seq(n, _ => "");
  }

  /** An at-bat without a column makes the whole table an index error. */
  lemma NoColumnNoStats(log: seq<AtBat>, i: nat)
    requires i < |log| && Column(log[i], ColumnCount(log)).None?
    ensures StatsOf(log) == None
  {
  }

  /** Rows built for every key of the whole log, listed in key order, are the table. */
  lemma RowsAreStats(log: seq<AtBat>, groups: map<GroupKey, Group>, keys: seq<GroupKey>, total: Totals)
    requires Indexable(log, ColumnCount(log))
    requires keys == KeysInOrder(log)
    requires groups.Keys == (set k | k in keys)
    requires RowsOf(groups, log, ColumnCount(log))
    requires total == Totals(Sum(log, AtBatCount), Sum(log, Hits), Sum(log, HomeRuns), Sum(log, Rbi))
    ensures Some(Stats(seq(|keys|, j requires 0 <= j < |keys| => groups[keys[j]]), ColumnCount(log), total))
            == StatsOf(log)
  {
    var n := ColumnCount(log);
    forall j | 0 <= j < |keys|
      ensures groups[keys[j]] == GroupOf(log, keys[j], n)
    {
      assert keys[j] in groups;
    }
    assert seq(|keys|, j requires 0 <= j < |keys| => groups[keys[j]])
        == seq(|keys|, j requires 0 <= j < |keys| => GroupOf(log, keys[j], n));
  }

  /** The totals after one more at-bat. */
  function AddedToTotals(t: Totals, a: AtBat): Totals {
    Totals(t.ab + Weight(a, AtBatCount), t.hit + Weight(a, Hits),
           t.hr + Weight(a, HomeRuns), t.rbi + Weight(a, Rbi))
  }

  /** The body of the loop for one at-bat: its result into the row's cell, and
      its at-bat, hit, home-run and RBI counts into the row and the totals. */
  method AddAtBat(g: Group, total: Totals, ab: AtBat, col: nat) returns (g': Group, total': Totals)
    requires col < |g.results|
    ensures g' == Added(g, ab, col)
    ensures total' == AddedToTotals(total, ab)
  {
    g' := g.(results := g.results[col := AppendCode(g.results[col], Code(ab.result))]);
    total' := total;
    if CountsAsAtBat(ab.result) {
      g' := g'.(ab := g'.ab + 1);
      total' := total'.(ab := total'.ab + 1);
    }
    if IsHit(ab.result) {
      g' := g'.(hit := g'.hit + 1);
      total' := total'.(hit := total'.hit + 1);
    }
    if IsHomeRun(ab.result) {
      g' := g'.(hr := g'.hr + 1);
      total' := total'.(hr := total'.hr + 1);
    }
    if ab.rbis != 0 {
      g' := g'.(rbi := g'.rbi + ab.rbis);
      total' := total'.(rbi := total'.rbi + ab.rbis);
    }
  }

  /** The loop's invariant: the rows, the key list and the totals are those of
      the at-bats read so far. */
  ghost predicate Built(groups: map<GroupKey, Group>, keys: seq<GroupKey>, total: Totals,
                        s: seq<AtBat>, n: nat) {
    && Indexable(s, n)
    && keys == KeysInOrder(s)
    && groups.Keys == (set k | k in keys)
    && RowsOf(groups, s, n)
    && total == Totals(Sum(s, AtBatCount), Sum(s, Hits), Sum(s, HomeRuns), Sum(s, Rbi))
  }

  /** One turn of the loop keeps the invariant. */
  lemma BuiltStep(groups: map<GroupKey, Group>, keys: seq<GroupKey>, total: Totals,
                  s: seq<AtBat>, a: AtBat, n: nat)
    requires Built(groups, keys, total, s, n)
    requires Column(a, n).Some?
    ensures var key := KeyOf(a);
            var groups' := if key in groups then groups else groups[key := NewGroup(key, n)];
            var keys' := if key in groups then keys else keys + [key];
            && |groups'[key].results| == n
            && Built(groups'[key := Added(groups'[key], a, Column(a, n).value)], keys',
                     AddedToTotals(total, a), s + [a], n)
  {
    var key := KeyOf(a);
    var groups' := if key in groups then groups else groups[key := NewGroup(key, n)];
    var keys' := if key in groups then keys else keys + [key];
    if key !in groups {
      RowsWithNewKey(groups, s, key, n);
    }
    RowsStep(groups', s, a, n);
    KeysStep(groups, keys, s, a, NewGroup(key, n));
    TotalsStep(total, s, a);
    IndexableStep(s, a, n);
  }

  lemma RowsWithNewKey(groups: map<GroupKey, Group>, s: seq<AtBat>, key: GroupKey, n: nat)
    requires RowsOf(groups, s, n) && key !in KeysInOrder(s)
    ensures RowsOf(groups[key := NewGroup(key, n)], s, n)
  {
    GroupOfNewKey(s, key, n);
  }

  lemma IndexableStep(s: seq<AtBat>, a: AtBat, n: nat)
    requires Indexable(s, n) && Column(a, n).Some?
    ensures Indexable(s + [a], n)
  {
    assert forall i :: 0 <= i < |s| ==> (s + [a])[i] == s[i];
  }

  lemma KeysStep(groups: map<GroupKey, Group>, keys: seq<GroupKey>, s: seq<AtBat>, a: AtBat, newRow: Group)
    requires keys == KeysInOrder(s) && groups.Keys == (set k | k in keys)
    ensures var key := KeyOf(a);
            var keys' := if key in groups then keys else keys + [key];
            && keys' == KeysInOrder(s + [a])
            && (if key in groups then groups else groups[key := newRow]).Keys == (set k | k in keys')
  {
    KeysInOrderAppend(s, a);
  }

  lemma TotalsStep(total: Totals, s: seq<AtBat>, a: AtBat)
    requires total == Totals(Sum(s, AtBatCount), Sum(s, Hits), Sum(s, HomeRuns), Sum(s, Rbi))
    ensures AddedToTotals(total, a) ==
              Totals(Sum(s + [a], AtBatCount), Sum(s + [a], Hits), Sum(s + [a], HomeRuns), Sum(s + [a], Rbi))
  {
    SumAppend(s, a, AtBatCount);
    SumAppend(s, a, Hits);
    SumAppend(s, a, HomeRuns);
    SumAppend(s, a, Rbi);
  }

  /** One turn of get_stats_table's loop: creates the at-bat's row the first time
      its key is seen, then adds the at-bat to its row and to the totals. */
  method AddToTable(groups: map<GroupKey, Group>, keys: seq<GroupKey>, total: Totals, ab: AtBat, n: nat,
                    ghost s: seq<AtBat>)
    returns (groups': map<GroupKey, Group>, keys': seq<GroupKey>, total': Totals)
    requires Built(groups, keys, total, s, n) && Column(ab, n).Some?
    ensures Built(groups', keys', total', s + [ab], n)
  {
    var key := KeyOf(ab);
    groups', keys' := groups, keys;
    if key !in groups {
      groups' := groups[key := Group(ab.order, ab.playerId, ab.note, ab.position, seq(n, _ => ""), 0, 0, 0, 0)];
      keys' := keys + [key];
    }
    BuiltStep(groups, keys, total, s, ab, n);
    var g: Group;
    g, total' := AddAtBat(groups'[key], total, ab, Column(ab, n).value);
    groups' := groups'[key := g];
  }

  /** get_stats_table: one pass over the log, creating a row the first time its key
      is seen and adding each at-bat's result and counts to its row and the totals. */
  method StatsTable(log: seq<AtBat>) returns (r: Option<Stats>)
    ensures r == StatsOf(log)
  {
    var n := if |log| == 0 then 9 else MaxInning(log);
    var groups: map<GroupKey, Group> := map[];
    var keys: seq<GroupKey> := [];
    var total := Totals(0, 0, 0, 0);
    var i := 0;
    while i < |log|
      invariant 0 <= i <= |log|
      invariant Built(groups, keys, total, log[..i], n)
    {
      var ab := log[i];
      if Column(ab, n).None? {
        NoColumnNoStats(log, i);
        return None;
      }
      groups, keys, total := AddToTable(groups, keys, total, ab, n, log[..i]);
      assert log[..i + 1] == log[..i] + [ab];
      i := i + 1;
    }
    assert log[..i] == log;
    var table := seq(|keys|, j requires 0 <= j < |keys| => groups[keys[j]]);
    r := Some(Stats(table, n, total));
    RowsAreStats(log, groups, keys, total);
  }

  // ---------------------------------------------------------------------------
  // What the table promises.

  /** The index error happens exactly when the log is not empty and every at-bat
      is in inning 0; otherwise there is one row per key, each with one cell per
      column. */
  lemma StatsShape(log: seq<AtBat>)
    ensures StatsOf(log).None? <==> log != [] && ColumnCount(log) == 0
    ensures StatsOf(log).Some? ==>
              var st := StatsOf(log).value;
              && st.maxInning == ColumnCount(log)
              && |st.groups| == |KeysInOrder(log)|
              && forall j :: 0 <= j < |st.groups| ==> |st.groups[j].results| == st.maxInning
  {
    IndexableUnlessAllInningZero(log);
  }

  /** In every row, and in the totals: home runs <= hits <= at-bats. */
  lemma CountsOrdered(log: seq<AtBat>, j: nat)
    requires StatsOf(log).Some? && j < |StatsOf(log).value.groups|
    ensures var g := StatsOf(log).value.groups[j];
            0 <= g.hr <= g.hit <= g.ab
    ensures var t := StatsOf(log).value.total;
            0 <= t.hr <= t.hit <= t.ab
  {
    HitTalliesOrdered(Filter(log, KeysInOrder(log)[j]));
    HitTalliesOrdered(log);
  }

  /** A row's count for one of the four box-score tallies. */
  function RowTally(g: Group, t: Tally): int {
    match t
    case AtBatCount => g.ab
    case Hits => g.hit
    case HomeRuns => g.hr
    case Rbi => g.rbi
    case _ => 0
  }

  /** The totals row's count for one of the four box-score tallies. */
  function TotalTally(total: Totals, t: Tally): int {
    match t
    case AtBatCount => total.ab
    case Hits => total.hit
    case HomeRuns => total.hr
    case Rbi => total.rbi
    case _ => 0
  }

  predicate BoxTally(t: Tally) {
    t.AtBatCount? || t.Hits? || t.HomeRuns? || t.Rbi?
  }

  /** The column sum of a tally over rows. */
  function ColumnSum(gs: seq<Group>, t: Tally): int {
    if gs == [] then 0 else ColumnSum(gs[..|gs| - 1], t) + RowTally(gs[|gs| - 1], t)
  }

  /** The tally summed row by row, one row per key. */
  function SumByKey(keys: seq<GroupKey>, log: seq<AtBat>, t: Tally): int {
    if keys == [] then 0 else SumByKey(keys[..|keys| - 1], log, t) + Sum(Filter(log, keys[|keys| - 1]), t)
  }

  lemma {:induction false} ColumnSumIsSumByKey(log: seq<AtBat>, keys: seq<GroupKey>, n: nat, t: Tally)
    requires BoxTally(t)
    ensures ColumnSum(seq(|keys|, i requires 0 <= i < |keys| => GroupOf(log, keys[i], n)), t)
            == SumByKey(keys, log, t)
  {
    if keys != [] {
      var rows := seq(|keys|, i requires 0 <= i < |keys| => GroupOf(log, keys[i], n));
      var init := keys[..|keys| - 1];
      assert rows[..|rows| - 1] == seq(|init|, i requires 0 <= i < |init| => GroupOf(log, init[i], n));
      assert rows[|rows| - 1] == GroupOf(log, keys[|keys| - 1], n);
      RowTallyOfGroup(log, keys[|keys| - 1], n, t);
      ColumnSumIsSumByKey(log, init, n, t);
    }
  }

  lemma RowTallyOfGroup(log: seq<AtBat>, k: GroupKey, n: nat, t: Tally)
    requires BoxTally(t)
    ensures RowTally(GroupOf(log, k, n), t) == Sum(Filter(log, k), t)
  {
  }

  /** One more at-bat raises the per-key sum by its weight once if its key is listed. */
  lemma {:induction false} SumByKeyAppend(keys: seq<GroupKey>, log: seq<AtBat>, a: AtBat, t: Tally)
    requires forall i, j :: 0 <= i < j < |keys| ==> keys[i] != keys[j]
    ensures SumByKey(keys, log + [a], t) == SumByKey(keys, log, t) + (if KeyOf(a) in keys then Weight(a, t) else 0)
  {
    if keys != [] {
      var init := keys[..|keys| - 1];
      var k := keys[|keys| - 1];
      SumByKeyAppend(init, log, a, t);
      FilterAppend(log, a, k);
      SumAppend(Filter(log, k), a, t);
      if KeyOf(a) == k {
        assert KeyOf(a) !in init;
      } else {
        assert Filter(log + [a], k) == Filter(log, k);
        assert KeyOf(a) in keys <==> KeyOf(a) in init;
      }
    }
  }

  /** Grouping loses and repeats nothing: summed over the rows, a tally is its sum over the log. */
  lemma {:induction false} SumByKeyIsSum(log: seq<AtBat>, t: Tally)
    ensures SumByKey(KeysInOrder(log), log, t) == Sum(log, t)
  {
    if log != [] {
      var init := log[..|log| - 1];
      assert log == init + [log[|log| - 1]];
      SumByKeyIsSum(init, t);
      SumByKeyStep(init, log[|log| - 1], t);
    }
  }

  lemma SumByKeyStep(s: seq<AtBat>, a: AtBat, t: Tally)
    requires SumByKey(KeysInOrder(s), s, t) == Sum(s, t)
    ensures SumByKey(KeysInOrder(s + [a]), s + [a], t) == Sum(s + [a], t)
  {
    var keys := KeysInOrder(s);
    SumAppend(s, a, t);
    SumByKeyAppend(keys, s, a, t);
    KeysInOrderAppend(s, a);
    if KeyOf(a) in keys {
      assert KeysInOrder(s + [a]) == keys;
    } else {
      assert KeysInOrder(s + [a]) == keys + [KeyOf(a)];
      SumByKeyNewKey(s, a, t);
    }
  }

  /** A key first seen at the last at-bat adds a row holding just that at-bat. */
  lemma SumByKeyNewKey(s: seq<AtBat>, a: AtBat, t: Tally)
    requires KeyOf(a) !in KeysInOrder(s)
    ensures SumByKey(KeysInOrder(s) + [KeyOf(a)], s + [a], t) == SumByKey(KeysInOrder(s), s + [a], t) + Weight(a, t)
  {
    var keys := KeysInOrder(s) + [KeyOf(a)];
    assert keys[..|keys| - 1] == KeysInOrder(s);
    KeyListed(s, KeyOf(a));
    FilterAppend(s, a, KeyOf(a));
    assert Filter(s + [a], KeyOf(a)) == [a];
    assert Sum([a], t) == Weight(a, t) + Sum([], t);
  }

  /** The totals row is the column sum of the rows, for at-bats, hits, home runs and RBIs. */
  lemma TotalsAreColumnSums(log: seq<AtBat>, t: Tally)
    requires StatsOf(log).Some? && BoxTally(t)
    ensures TotalTally(StatsOf(log).value.total, t) == ColumnSum(StatsOf(log).value.groups, t)
  {
    ColumnSumIsSumByKey(log, KeysInOrder(log), ColumnCount(log), t);
    SumByKeyIsSum(log, t);
  }

  /** The RBI total is the team score's run count whenever no RBI value is negative. */
  lemma RbiTotalIsScore(log: seq<AtBat>)
    requires StatsOf(log).Some?
    requires forall i :: 0 <= i < |log| ==> log[i].rbis >= 0
    ensures StatsOf(log).value.total.rbi == Sum(log, PositiveRbi)
  {
    RbiSumsAgree(log);
  }

  // Every at-bat lands in exactly one cell of its row.

  /** The number of results in the first m cells of a row. */
  function CodesInCells(f: seq<AtBat>, n: nat, m: nat): nat {
    if m == 0 then 0 else CodesInCells(f, n, m - 1) + |CodesIn(f, m - 1, n)|
  }

  lemma {:induction false} CodesInCellsAppend(f: seq<AtBat>, a: AtBat, n: nat, m: nat)
    requires Column(a, n).Some?
    ensures CodesInCells(f + [a], n, m) == CodesInCells(f, n, m) + (if Column(a, n).value < m then 1 else 0)
  {
    if m > 0 {
      CodesInCellsAppend(f, a, n, m - 1);
      CodesInAppend(f, a, m - 1, n);
    }
  }

  /** Across the n cells of a row there are exactly as many results as the row has at-bats. */
  lemma {:induction false} EveryAtBatInOneCell(f: seq<AtBat>, n: nat)
    requires Indexable(f, n)
    ensures CodesInCells(f, n, n) == |f|
  {
    if f == [] {
      NoCodesInCells(n, n);
    } else {
      var init := f[..|f| - 1];
      var a := f[|f| - 1];
      assert f == init + [a];
      assert Column(a, n).Some?;
      assert Indexable(init, n);
      EveryAtBatInOneCell(init, n);
      CodesInCellsAppend(init, a, n, n);
    }
  }

  lemma {:induction false} NoCodesInCells(n: nat, m: nat)
    ensures CodesInCells([], n, m) == 0
  {
    if m > 0 {
      NoCodesInCells(n, m - 1);
    }
  }

  // A cell is its results joined with "/".

  /** The results joined with "/" between consecutive ones. */
  function Joined(codes: seq<string>): string {
    if codes == [] then ""
    else if |codes| == 1 then codes[0]
    else Joined(codes[..|codes| - 1]) + "/" + codes[|codes| - 1]
  }

  /** The results from the first non-empty one on. */
  function DropLeadingEmpty(codes: seq<string>): (r: seq<string>)
    ensures r != [] ==> r[0] != ""
  {
    if codes == [] then [] else if codes[0] == "" then DropLeadingEmpty(codes[1..]) else codes
  }

  lemma {:induction false} DropLeadingEmptyAppend(codes: seq<string>, code: string)
    ensures DropLeadingEmpty(codes + [code]) ==
              if DropLeadingEmpty(codes) == [] then (if code == "" then [] else [code])
              else DropLeadingEmpty(codes) + [code]
  {
    if codes != [] {
      assert (codes + [code])[1..] == codes[1..] + [code];
      DropLeadingEmptyAppend(codes[1..], code);
    } else {
      assert codes + [code] == [code];
      assert [code][1..] == [];
    }
  }

  lemma {:induction false} JoinedStartsWithFirst(codes: seq<string>)
    requires codes != []
    ensures |Joined(codes)| >= |codes[0]|
  {
    if |codes| > 1 {
      JoinedStartsWithFirst(codes[..|codes| - 1]);
    }
  }

  /** A cell holds its results joined with "/" in log order; only empty results
      before the first non-empty one leave no separator. */
  lemma {:induction false} CellIsJoined(codes: seq<string>)
    ensures Cell(codes) == Joined(DropLeadingEmpty(codes))
  {
    if codes != [] {
      var init := codes[..|codes| - 1];
      var code := codes[|codes| - 1];
      assert codes == init + [code];
      CellIsJoined(init);
      DropLeadingEmptyAppend(init, code);
      var d := DropLeadingEmpty(init);
      if d != [] {
        JoinedStartsWithFirst(d);
        assert (d + [code])[..|d|] == d;
      }
    }
  }

  /** With no empty result, a cell is exactly its results joined with "/". */
  lemma CellIsJoinedWhenNoneEmpty(codes: seq<string>)
    requires forall i :: 0 <= i < |codes| ==> codes[i] != ""
    ensures Cell(codes) == Joined(codes)
  {
    CellIsJoined(codes);
    assert codes == [] || DropLeadingEmpty(codes) == codes;
  }
}
