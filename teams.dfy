/**
 * Arena teams and the least-used team distributor (ArenaTeam.java).
 *
 * The distributor's priority queue of `Team` slots is modelled as a sequence
 * of (team, uses) slots kept in the configured order; `Next` takes any slot
 * whose use count is minimal, as `PriorityQueue.remove` does under
 * `Team.compareTo`, which compares use counts only.
 */
module Teams {

  /** The ArenaTeam enum constants, in declaration order. */
  datatype ArenaTeam =
    | NoTeam | Gold | Sky | Yellow | Emerald | Pink | Dark | Gray
    | Aqua | Purple | Blue | Green | Red | Black

  /** The numeric team id given to each constant; NONE has -1. */
  function TeamId(t: ArenaTeam): int {
    match t
    case NoTeam => -1
    case Gold => 1
    case Sky => 3
    case Yellow => 4
    case Emerald => 5
    case Pink => 6
    case Dark => 7
    case Gray => 8
    case Aqua => 9
    case Purple => 10
    case Blue => 11
    case Green => 13
    case Red => 14
    case Black => 15
  }

  /** The block used to show a team: wool dyed with the team id, or plain wood. */
  datatype MaterialData = Wool(color: int) | Wood

  function TeamBlock(t: ArenaTeam): (m: MaterialData)
    ensures m.Wool? <==> 0 <= TeamId(t) <= 15
    ensures m.Wool? ==> m.color == TeamId(t)
  {
    if 0 <= TeamId(t) && TeamId(t) <= 15 then Wool(TeamId(t)) else Wood
  }

  /** Only the NONE team is shown as wood, and no two teams share a block. */
  lemma TeamBlockIdentifiesTeam(t: ArenaTeam, u: ArenaTeam)
    ensures TeamBlock(t) == Wood <==> t == NoTeam
    ensures TeamBlock(t) == TeamBlock(u) ==> t == u
  {
  }

  // ---------------------------------------------------------------------
  // Specification of the distributor's pool

  /** One `Team` slot: a team and how many times it is currently handed out. */
  datatype Slot = Slot(team: ArenaTeam, uses: int)

  /** Slot `i` has a use count no greater than any other slot's. */
  predicate IsLeastUsed(slots: seq<Slot>, i: int) {
    0 <= i < |slots| && forall j :: 0 <= j < |slots| ==> slots[i].uses <= slots[j].uses
  }

  /** A least-used slot of a non-empty pool (the head of the priority queue). */
  function LeastUsed(slots: seq<Slot>): (i: nat)
    requires |slots| > 0
    ensures IsLeastUsed(slots, i)
  {
    if |slots| == 1 then 0
    else
      var k := LeastUsed(slots[1..]) + 1;
      if slots[0].uses <= slots[k].uses then 0 else k
  }

  /** The pool after slot `i` has been handed out once more. */
  function Bumped(slots: seq<Slot>, i: nat): (r: seq<Slot>)
    requires i < |slots|
    ensures HoldsTeams(r, TeamsOf(slots))
    ensures r[i].uses == slots[i].uses + 1
    ensures forall j :: 0 <= j < |slots| && j != i ==> r[j] == slots[j]
  {
    slots[i := slots[i].(uses := slots[i].uses + 1)]
  }

  /** The pool built by `loadTeams`: one slot per configured team, none used. */
  function ZeroSlots(teams: seq<ArenaTeam>): (slots: seq<Slot>)
    ensures |slots| == |teams|
    ensures forall i :: 0 <= i < |teams| ==> slots[i] == Slot(teams[i], 0)
  {
    seq(|teams|, i requires 0 <= i < |teams| => Slot(teams[i], 0))
  }

  /** The first slot, in pool order, that holds team `t`. */
  function FirstSlotOf(slots: seq<Slot>, t: ArenaTeam): (r: int)
    ensures -1 <= r < |slots|
    ensures r >= 0 ==> slots[r].team == t
    ensures forall j :: 0 <= j < |slots| && (r < 0 || j < r) ==> slots[j].team != t
  {
    if |slots| == 0 then -1
    else if slots[0].team == t then 0
    else
      var k := FirstSlotOf(slots[1..], t);
      if k < 0 then -1 else k + 1
  }

  /** The pool after `recycle(t)`: the first slot of `t` loses one use (without a floor). */
  function Recycled(slots: seq<Slot>, t: ArenaTeam): (r: seq<Slot>)
    ensures HoldsTeams(r, TeamsOf(slots))
    ensures forall j :: 0 <= j < |slots| && slots[j].team != t ==> r[j] == slots[j]
    ensures forall j :: 0 <= j < |slots| ==> slots[j].uses - 1 <= r[j].uses <= slots[j].uses
  {
    var k := FirstSlotOf(slots, t);
    if k < 0 then slots else slots[k := slots[k].(uses := slots[k].uses - 1)]
  }

  /** The teams of the pool's slots, in pool order. */
  function TeamsOf(slots: seq<Slot>): (teams: seq<ArenaTeam>)
    ensures |teams| == |slots|
  {
    seq(|slots|, i requires 0 <= i < |slots| => slots[i].team)
  }

  /** The pool as a list of teams, ignoring counts. */
  predicate HoldsTeams(slots: seq<Slot>, teams: seq<ArenaTeam>) {
    |slots| == |teams| && forall i :: 0 <= i < |slots| ==> slots[i].team == teams[i]
  }

  /** No two use counts differ by more than one. */
  predicate Balanced(slots: seq<Slot>) {
    forall i, j :: 0 <= i < |slots| && 0 <= j < |slots| ==> slots[i].uses - slots[j].uses <= 1
  }

  /** No use count is below zero. */
  predicate NoneNegative(slots: seq<Slot>) {
    forall i :: 0 <= i < |slots| ==> slots[i].uses >= 0
  }

  /** Some slot holds team `t`. */
  predicate HasSlot(slots: seq<Slot>, t: ArenaTeam) {
    exists j :: 0 <= j < |slots| && slots[j].team == t
  }

  /** The sum of all use counts. */
  function TotalUses(slots: seq<Slot>): int {
    if |slots| == 0 then 0 else slots[0].uses + TotalUses(slots[1..])
  }

  // ---------------------------------------------------------------------
  // Properties of the pool operations

  /** `recycle(t)` when `t` has a slot: exactly the first such slot loses one use. */
  lemma {:induction false} RecycleLowersFirstMatch(slots: seq<Slot>, t: ArenaTeam)
    requires HasSlot(slots, t)
    ensures |Recycled(slots, t)| == |slots|
    ensures exists k :: 0 <= k < |slots| && slots[k].team == t
              && (forall j :: 0 <= j < k ==> slots[j].team != t)
              && Recycled(slots, t)[k] == Slot(t, slots[k].uses - 1)
              && forall j :: 0 <= j < |slots| && j != k ==> Recycled(slots, t)[j] == slots[j]
  {
    var j :| 0 <= j < |slots| && slots[j].team == t;
    var k := FirstSlotOf(slots, t);
    assert k >= 0;
  }

  /** `recycle(t)` when `t` has no slot leaves the pool as it was. */
  lemma RecycleAbsentIsNoOp(slots: seq<Slot>, t: ArenaTeam)
    requires forall j :: 0 <= j < |slots| ==> slots[j].team != t
    ensures Recycled(slots, t) == slots
  {
  }

  /** There is no floor: recycling a team that was never handed out drives its count below zero. */
  lemma RecycleGoesBelowZero()
    ensures Recycled(ZeroSlots([Gold, Red]), Gold) == [Slot(Gold, -1), Slot(Red, 0)]
  {
  }

  /** So the pool can become unbalanced once recycle is used. */
  lemma RecycleCanUnbalance()
    ensures Balanced(ZeroSlots([Gold, Red]))
    ensures !Balanced(Recycled(Recycled(ZeroSlots([Gold, Red]), Gold), Gold))
  {
    var s := Recycled(Recycled(ZeroSlots([Gold, Red]), Gold), Gold);
    assert s[1].uses - s[0].uses == 2;
  }

  /** Changing one slot's count changes the total by the same amount. */
  lemma {:induction false} TotalUsesUpdate(slots: seq<Slot>, i: nat, s: Slot)
    requires i < |slots|
    ensures TotalUses(slots[i := s]) == TotalUses(slots) - slots[i].uses + s.uses
  {
    if i > 0 {
      assert slots[i := s][1..] == slots[1..][i - 1 := s];
      TotalUsesUpdate(slots[1..], i - 1, s);
    } else {
      assert slots[i := s][1..] == slots[1..];
    }
  }

  /** Every `next` hands out exactly one more use in total. */
  lemma NextRaisesTotalByOne(slots: seq<Slot>, i: nat)
    requires i < |slots|
    ensures TotalUses(Bumped(slots, i)) == TotalUses(slots) + 1
  {
    TotalUsesUpdate(slots, i, slots[i].(uses := slots[i].uses + 1));
  }

  /** A `recycle` of a team in the pool takes exactly one use back; one of an absent team none. */
  lemma RecycleLowersTotal(slots: seq<Slot>, t: ArenaTeam)
    ensures HasSlot(slots, t) ==> TotalUses(Recycled(slots, t)) == TotalUses(slots) - 1
    ensures !HasSlot(slots, t) ==> TotalUses(Recycled(slots, t)) == TotalUses(slots)
  {
    var k := FirstSlotOf(slots, t);
    assert k >= 0 <==> HasSlot(slots, t);
    if k >= 0 {
      TotalUsesUpdate(slots, k, slots[k].(uses := slots[k].uses - 1));
    }
  }

  /** Taking a least-used slot keeps a balanced pool balanced. */
  lemma NextKeepsBalance(slots: seq<Slot>, i: nat)
    requires Balanced(slots) && IsLeastUsed(slots, i)
    ensures Balanced(Bumped(slots, i))
  {
  }

  /** One call of `next`: some least-used slot gains one use. */
  ghost predicate NextStep(before: seq<Slot>, after: seq<Slot>) {
    exists i :: IsLeastUsed(before, i) && after == Bumped(before, i)
  }

  /**
   * Fairness: starting from a reset pool and applying only `next`, use counts
   * never differ by more than one.
   */
  lemma {:induction false} NextOnlyRunIsBalanced(run: seq<seq<Slot>>, teams: seq<ArenaTeam>)
    requires |run| > 0 && run[0] == ZeroSlots(teams)
    requires forall k :: 0 <= k < |run| - 1 ==> NextStep(run[k], run[k + 1])
    ensures Balanced(run[|run| - 1]) && NoneNegative(run[|run| - 1])
  {
    if |run| > 1 {
      var prefix := run[..|run| - 1];
      assert forall k :: 0 <= k < |prefix| - 1 ==> NextStep(prefix[k], prefix[k + 1]) by {
        forall k | 0 <= k < |prefix| - 1 ensures NextStep(prefix[k], prefix[k + 1]) {
          assert prefix[k] == run[k] && prefix[k + 1] == run[k + 1];
        }
      }
      NextOnlyRunIsBalanced(prefix, teams);
      assert NextStep(run[|run| - 2], run[|run| - 1]);
      var i :| IsLeastUsed(run[|run| - 2], i) && run[|run| - 1] == Bumped(run[|run| - 2], i);
      NextKeepsBalance(run[|run| - 2], i);
    }
  }

  // ---------------------------------------------------------------------
  // The distributor itself

  /** `ArenaTeam.TeamDistributor`: a pool of team slots handed out least-used first. */
  class TeamDistributor {
    /** The configured teams (`_cache`), kept for `reset`. */
    var cache: seq<ArenaTeam>
    /** The slots of the priority queue `_teams`. */
    var slots: seq<Slot>
    /** True while no `recycle` has happened since the last (re)load. */
    ghost var nextOnly: bool

    ghost predicate Valid()
      reads this
    {
      && HoldsTeams(slots, cache)
      && (nextOnly ==> Balanced(slots) && NoneNegative(slots))
    }

    /** Both Java constructors: copy the given teams and load a fresh pool. */
    constructor (teams: seq<ArenaTeam>)
      ensures Valid()
      ensures cache == teams && slots == ZeroSlots(teams)
      ensures nextOnly
    {
      cache := teams;
      slots := [];
      nextOnly := true;
      new;
      LoadTeams();
    }

    /** `loadTeams`: clear the queue, then add one unused slot per cached team. */
    method LoadTeams()
      modifies this
      ensures Valid()
      ensures cache == old(cache) && slots == ZeroSlots(cache)
      ensures nextOnly
    {
      slots := [];
      for i := 0 to |cache|
        invariant cache == old(cache)
        invariant slots == ZeroSlots(cache[..i])
      {
        slots := slots + [Slot(cache[i], 0)];
      }
      assert cache[..|cache|] == cache;
      nextOnly := true;
    }

    /** `reset`: every slot back to zero uses, all history discarded. */
    method Reset()
      modifies this
      ensures Valid()
      ensures cache == old(cache) && slots == ZeroSlots(cache)
      ensures nextOnly
    {
      LoadTeams();
    }

    /**
     * `next`: take a least-used slot, count one more use and return its team.
     * The Java queue throws on an empty pool, so the pool must not be empty.
     */
    method Next() returns (team: ArenaTeam)
      requires Valid() && |slots| > 0
      modifies this
      ensures Valid() && cache == old(cache) && nextOnly == old(nextOnly)
      ensures exists i :: IsLeastUsed(old(slots), i) && team == old(slots)[i].team
                          && slots == Bumped(old(slots), i)
      ensures nextOnly ==> Balanced(slots) && NoneNegative(slots)
    {
      assert IsLeastUsed(slots, LeastUsed(slots));
      var i :| 0 <= i < |slots| && IsLeastUsed(slots, i);
      team := slots[i].team;
      if nextOnly {
        NextKeepsBalance(slots, i);
      }
      slots := slots[i := Slot(team, slots[i].uses + 1)];
    }

    /**
     * `recycle`: walk the queue for the first slot of `t` and take one use
     * back from it; nothing happens when `t` has no slot.
     */
    method Recycle(t: ArenaTeam)
      requires Valid()
      modifies this
      ensures Valid() && cache == old(cache)
      ensures slots == Recycled(old(slots), t)
      ensures nextOnly == (old(nextOnly) && !HasSlot(old(slots), t))
    {
      var i := 0;
      var found := false;
      while i < |slots| && !found
        invariant 0 <= i <= |slots|
        invariant found ==> i < |slots| && slots[i].team == t
        invariant forall j :: 0 <= j < i ==> slots[j].team != t
        decreases |slots| - i, if found then 0 else 1
      {
        if slots[i].team == t {
          found := true;
        } else {
          i := i + 1;
        }
      }
      if found {
        assert FirstSlotOf(slots, t) == i;
        slots := slots[i := slots[i].(uses := slots[i].uses - 1)];
        nextOnly := false;
      }
    }
  }
}
