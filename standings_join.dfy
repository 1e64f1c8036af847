/**
 * Second half of the results-table builders: the final-round standings rows
 * are walked in the order the query returns them (points descending); each
 * row whose id was grouped sets that entry's `TotalPoints` and appends the
 * entry to the output list. Rows for ids that were not grouped are skipped.
 */
module StandingsJoin {
  import opened Wrappers
  import opened Grouping

  /** One row of the final-round standings query. */
  datatype StandingRow<K> = StandingRow(id: K, points: int)

  predicate NonIncreasing<K>(standings: seq<StandingRow<K>>) {
    forall i, j :: 0 <= i < j < |standings| ==> standings[i].points >= standings[j].points
  }

  predicate DistinctIds<K(==)>(standings: seq<StandingRow<K>>) {
    forall i, j :: 0 <= i < j < |standings| ==> standings[i].id != standings[j].id
  }

  /** The standings rows that append an entry: those whose id is a key, in row order. */
  function Kept<K>(keys: set<K>, standings: seq<StandingRow<K>>): (kept: seq<StandingRow<K>>)
    ensures |kept| <= |standings|
    ensures forall i :: 0 <= i < |kept| ==> kept[i].id in keys
  {
    if standings == [] then []
    else
      var last := standings[|standings| - 1];
      Kept(keys, standings[..|standings| - 1]) + (if last.id in keys then [last] else [])
  }

  /** The points of the last standings row for `k`, if there is one. */
  function LastPoints<K(==)>(standings: seq<StandingRow<K>>, k: K): (p: Option<int>)
    ensures p.Some? <==> exists j :: 0 <= j < |standings| && standings[j].id == k
    ensures p.Some? ==> exists j ::
      && 0 <= j < |standings| && standings[j].id == k && standings[j].points == p.value
      && forall i :: j < i < |standings| ==> standings[i].id != k
  {
    if standings == [] then None
    else if standings[|standings| - 1].id == k then Some(standings[|standings| - 1].points)
    else LastPoints(standings[..|standings| - 1], k)
  }

  function WithPoints<K, N>(e: Entry<K, N>, p: Option<int>): Entry<K, N> {
    match p
    case Some(points) => e.(totalPoints := points)
    case None => e
  }

  /** The dictionary after the standings loop: only `TotalPoints` changes, to the last row's points. */
  function Rescore<K, N>(data: map<K, Entry<K, N>>, standings: seq<StandingRow<K>>): (scored: map<K, Entry<K, N>>)
    ensures scored.Keys == data.Keys
    ensures forall k :: k in data ==>
      && scored[k].id == data[k].id && scored[k].name == data[k].name && scored[k].races == data[k].races
      && scored[k].totalPoints == (if LastPoints(standings, k).Some? then LastPoints(standings, k).value else data[k].totalPoints)
  {
    map k | k in data :: WithPoints(data[k], LastPoints(standings, k))
  }

  /** The standings loop: sets `TotalPoints` in place and collects the appended entries' ids. */
  method JoinStandings<K, N>(data: map<K, Entry<K, N>>, standings: seq<StandingRow<K>>)
    returns (scored: map<K, Entry<K, N>>, picked: seq<K>)
    ensures scored == Rescore(data, standings)
    ensures |picked| == |Kept(data.Keys, standings)|
    ensures forall i :: 0 <= i < |picked| ==> picked[i] == Kept(data.Keys, standings)[i].id
  {
    scored := data;
    picked := [];
    assert Rescore(data, []) == data;
    for i := 0 to |standings|
      invariant scored == Rescore(data, standings[..i])
      invariant |picked| == |Kept(data.Keys, standings[..i])|
      invariant forall n :: 0 <= n < |picked| ==> picked[n] == Kept(data.Keys, standings[..i])[n].id
    {
      var row := standings[i];
      assert standings[..i + 1] == standings[..i] + [row];
      assert standings[..i + 1][..i] == standings[..i];
      if row.id in scored {
        scored := scored[row.id := scored[row.id].(totalPoints := row.points)];
        picked := picked + [row.id];
      }
    }
    assert standings[..|standings|] == standings;
  }

  /** A row is kept exactly when it is a standings row whose id is a key. */
  lemma {:induction false} KeptMembership<K>(keys: set<K>, standings: seq<StandingRow<K>>, x: StandingRow<K>)
    ensures x in Kept(keys, standings) <==> x in standings && x.id in keys
  {
    if standings != [] {
      var init := standings[..|standings| - 1];
      KeptMembership(keys, init, x);
      assert standings == init + [standings[|standings| - 1]];
    }
  }

  /** Filtering commutes with concatenation, so the kept rows stay in standings order. */
  lemma {:induction false} KeptAppend<K>(keys: set<K>, a: seq<StandingRow<K>>, b: seq<StandingRow<K>>)
    ensures Kept(keys, a + b) == Kept(keys, a) + Kept(keys, b)
  {
    if b == [] {
      assert a + b == a;
    } else {
      var bInit := b[..|b| - 1];
      KeptAppend(keys, a, bInit);
      assert (a + b)[..|a + b| - 1] == a + bInit;
    }
  }

  /** With points descending in the standings, the kept rows' points are descending too. */
  lemma {:induction false} KeptNonIncreasing<K>(keys: set<K>, standings: seq<StandingRow<K>>)
    requires NonIncreasing(standings)
    ensures NonIncreasing(Kept(keys, standings))
  {
    if standings != [] {
      var init := standings[..|standings| - 1];
      var last := standings[|standings| - 1];
      KeptNonIncreasing(keys, init);
      var k0 := Kept(keys, init);
      forall i | 0 <= i < |k0|
        ensures k0[i].points >= last.points
      {
        KeptMembership(keys, init, k0[i]);
        var j :| 0 <= j < |init| && init[j] == k0[i];
        assert standings[j] == init[j];
      }
    }
  }

  /** With one standings row per id, an id's total is the points of its own row. */
  lemma {:induction false} LastPointsOfDistinct<K>(standings: seq<StandingRow<K>>, j: int)
    requires DistinctIds(standings)
    requires 0 <= j < |standings|
    ensures LastPoints(standings, standings[j].id) == Some(standings[j].points)
  {
    if j < |standings| - 1 {
      LastPointsOfDistinct(standings[..|standings| - 1], j);
    }
  }
}
