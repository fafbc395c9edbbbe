/**
 * Filtering and random choice of spawnpoints (SpawnFilter.java).
 *
 * The three `filter` overloads differ only in what a spawn must match, so
 * one method takes that as a `Criterion`. The random number behind
 * `Rand.get` is a parameter, `roll`.
 */
module SpawnFilter {
  import opened Wrappers
  import opened Spawns
  import Teams

  /** What a spawn must match: its team, its type, or both. */
  datatype Criterion =
    | ByTeam(team: Teams.ArenaTeam)
    | ByType(spawnType: SpawnType)
    | ByTypeAndTeam(spawnType: SpawnType, team: Teams.ArenaTeam)

  predicate Matches(c: Criterion, sp: Spawnpoint) {
    match c
    case ByTeam(team) => sp.team == team
    case ByType(spawnType) => sp.spawnType == spawnType
    case ByTypeAndTeam(spawnType, team) => sp.spawnType == spawnType && sp.team == team
  }

  /** The matching spawns, in input order. */
  function Filtered(c: Criterion, spawns: seq<Spawnpoint>): (r: seq<Spawnpoint>)
    ensures |r| <= |spawns|
    ensures forall x :: x in r ==> x in spawns && Matches(c, x)
    decreases |spawns|
  {
    if |spawns| == 0 then []
    else
      var last := spawns[|spawns| - 1];
      Filtered(c, spawns[..|spawns| - 1]) + (if Matches(c, last) then [last] else [])
  }

  /** `filter`: walk the spawns and collect those that match. */
  method Filter(c: Criterion, spawns: seq<Spawnpoint>) returns (results: seq<Spawnpoint>)
    ensures results == Filtered(c, spawns)
  {
    results := [];
    for i := 0 to |spawns|
      invariant results == Filtered(c, spawns[..i])
    {
      assert spawns[..i + 1][..i] == spawns[..i];
      if Matches(c, spawns[i]) {
        results := results + [spawns[i]];
      }
    }
    assert spawns[..|spawns|] == spawns;
  }

  /** `r` is `s` with some elements left out, the rest kept in order. */
  predicate IsSubsequence<T(==)>(r: seq<T>, s: seq<T>)
    decreases |s|
  {
    if |r| == 0 then true
    else if |s| == 0 then false
    else if r[|r| - 1] == s[|s| - 1] then IsSubsequence(r[..|r| - 1], s[..|s| - 1])
    else IsSubsequence(r, s[..|s| - 1])
  }

  /** A filter result keeps its input's order. */
  lemma {:induction false} FilteredIsSubsequence(c: Criterion, spawns: seq<Spawnpoint>)
    ensures IsSubsequence(Filtered(c, spawns), spawns)
    decreases |spawns|
  {
    if |spawns| > 0 {
      var init, last := spawns[..|spawns| - 1], spawns[|spawns| - 1];
      var r := Filtered(c, spawns);
      FilteredIsSubsequence(c, init);
      if Matches(c, last) {
        assert r[..|r| - 1] == Filtered(c, init);
      } else {
        assert r == Filtered(c, init);
        if |r| > 0 {
          // the last element of r is not `last`, since `last` does not match
          assert r[|r| - 1] in r;
        }
      }
    }
  }

  /** A filter result holds every matching spawn as often as the input does, and nothing else. */
  lemma {:induction false} FilteredKeepsExactlyMatches(c: Criterion, spawns: seq<Spawnpoint>, x: Spawnpoint)
    ensures multiset(Filtered(c, spawns))[x] == if Matches(c, x) then multiset(spawns)[x] else 0
    decreases |spawns|
  {
    if |spawns| > 0 {
      var init, last := spawns[..|spawns| - 1], spawns[|spawns| - 1];
      FilteredKeepsExactlyMatches(c, init, x);
      assert spawns == init + [last];
    }
  }

  /** Nothing matches exactly when the filter result is empty. */
  lemma {:induction false} FilteredEmptyIffNoMatch(c: Criterion, spawns: seq<Spawnpoint>)
    ensures Filtered(c, spawns) == [] <==> forall x :: x in spawns ==> !Matches(c, x)
  {
    if exists x :: x in spawns && Matches(c, x) {
      var x :| x in spawns && Matches(c, x);
      FilteredKeepsExactlyMatches(c, spawns, x);
      assert multiset(spawns)[x] > 0;
    }
    var r := Filtered(c, spawns);
    if r != [] {
      assert r[0] in r;
    }
  }

  /** Filtering by type and team is filtering by type, then by team. */
  lemma {:induction false} TypeAndTeamIsTypeThenTeam(spawnType: SpawnType, team: Teams.ArenaTeam, spawns: seq<Spawnpoint>)
    ensures Filtered(ByTypeAndTeam(spawnType, team), spawns) ==
            Filtered(ByTeam(team), Filtered(ByType(spawnType), spawns))
    decreases |spawns|
  {
    if |spawns| > 0 {
      var init, last := spawns[..|spawns| - 1], spawns[|spawns| - 1];
      TypeAndTeamIsTypeThenTeam(spawnType, team, init);
      var byType := Filtered(ByType(spawnType), spawns);
      if Matches(ByType(spawnType), last) {
        assert byType[..|byType| - 1] == Filtered(ByType(spawnType), init);
        assert byType[|byType| - 1] == last;
      } else {
        assert byType == Filtered(ByType(spawnType), init);
      }
    }
  }

  // ---------------------------------------------------------------------
  // Random choice

  /**
   * `Rand.get`: an element of the list picked by the random number `roll`.
   * On an empty list it gives null; that behaviour belongs to `Rand`, which
   * is not part of this model, and is assumed here.
   */
  function RandGet(list: seq<Spawnpoint>, roll: nat): (r: Option<Spawnpoint>)
    ensures r.None? <==> list == []
    ensures r.Some? ==> r.value in list
  {
    if list == [] then None else Some(list[roll % |list|])
  }

  /** The collection handed in: a `List`, or any other kind of `Collection` (a set, a queue, ...). */
  datatype SpawnCollection = ListOf(items: seq<Spawnpoint>) | OtherCollection(items: seq<Spawnpoint>)

  /**
   * `getRandomSpawn(spawnpoints)` as written: a collection that is not a
   * `List` is replaced by `new ArrayList<T>(spawnpoints.size())`, which is an
   * empty list with that capacity, not a copy.
   */
  function GetRandomSpawnAsWritten(spawns: SpawnCollection, roll: nat): (r: Option<Spawnpoint>)
    ensures |spawns.items| == 0 ==> r.None?
    ensures spawns.OtherCollection? ==> r.None?
    ensures spawns.ListOf? && |spawns.items| > 0 ==> r.Some? && r.value in spawns.items
    ensures spawns.ListOf? ==> r == GetRandomSpawn(spawns, roll)
  {
    if |spawns.items| == 0 then None
    else
      var list := if spawns.ListOf? then spawns.items else [];
      RandGet(list, roll)
  }

  /** A single spawnpoint in a set is never chosen by the code as written. */
  lemma NonListSpawnsAreNeverChosen(sp: Spawnpoint, roll: nat)
    ensures GetRandomSpawnAsWritten(OtherCollection([sp]), roll) == None
    ensures GetRandomSpawn(OtherCollection([sp]), roll) == Some(sp)
  {
  }

  /** `getRandomSpawn(spawnpoints)` with the elements copied: null only for an empty collection. */
  function GetRandomSpawn(spawns: SpawnCollection, roll: nat): (r: Option<Spawnpoint>)
    ensures r.None? <==> |spawns.items| == 0
    ensures r.Some? ==> r.value in spawns.items
  {
    if |spawns.items| == 0 then None else RandGet(spawns.items, roll)
  }

  /**
   * The filtered `getRandomSpawn` overloads: null for an empty collection or
   * when nothing matches, otherwise a matching spawn of the collection.
   */
  function GetRandomMatchingSpawn(c: Criterion, spawns: seq<Spawnpoint>, roll: nat): (r: Option<Spawnpoint>)
    ensures r.None? <==> forall x :: x in spawns ==> !Matches(c, x)
    ensures r.Some? ==> r.value in spawns && Matches(c, r.value)
  {
    FilteredEmptyIffNoMatch(c, spawns);
    if |spawns| == 0 then None
    else
      var filtered := Filtered(c, spawns);
      if |filtered| == 0 then None else RandGet(filtered, roll)
  }
}
