/**
 * A round (round.rs): one phase of an event, owning its groups in an id
 * container.  Every group stores the event and round ids of its round.
 */
module Rounds {
  import opened Common
  import opened Identifiers
  import opened Container
  import opened Groups

  datatype Round = Round(id: RoundId, groups: UidContainer<Group>)

  /** The k-th group of a fresh round of event `bid` whose round id is `rid`. */
  function FreshGroup(bid: BewerbId, rid: nat, k: nat): Group
  {
    Group(GroupId(bid.bewerbName, bid.bewerbId, rid, k), None, [])
  }

  /**
   * `Round::new`: round id 0 (the default) and `nGroups` groups pushed into
   * an empty container, so they get the group ids 0..nGroups-1 in order.
   */
  method NewRound(bid: BewerbId, nGroups: nat) returns (r: Round)
    ensures r.id == RoundId(bid.bewerbName, bid.bewerbId, 0)
    ensures |r.groups.vec| == nGroups
    ensures forall k :: 0 <= k < nGroups ==> r.groups.vec[k] == FreshGroup(bid, 0, k)
  {
    r := Round(RoundId(bid.bewerbName, bid.bewerbId, 0), UidContainer([]));
    GroupHasIdLawful();
    var i := 0;
    while i < nGroups
      invariant 0 <= i <= nGroups
      invariant r.id == RoundId(bid.bewerbName, bid.bewerbId, 0)
      invariant |r.groups.vec| == i
      invariant forall k :: 0 <= k < i ==> r.groups.vec[k] == FreshGroup(bid, 0, k)
    {
      var group := NewGroup(r.id);
      assert forall k :: 0 <= k < i ==> Ids(r.groups.vec, GroupHasId)[k] == k;
      NewIdAfterRange(Ids(r.groups.vec, GroupHasId));
      var groups := Push(r.groups, group, GroupHasId);
      r := r.(groups := groups);
      i := i + 1;
    }
  }

  /** `get_all_groups`: every group's id, in insertion order. */
  function AllGroups(r: Round): seq<GroupId>
  {
    seq(|r.groups.vec|, k requires 0 <= k < |r.groups.vec| => r.groups.vec[k].id)
  }

  /** The ids of the groups without an arena, in order. */
  function FreeIds(gs: seq<Group>): (r: seq<GroupId>)
    ensures |r| <= |gs|
    ensures forall x :: x in r ==> exists k :: 0 <= k < |gs| && gs[k].id == x && gs[k].arena.None?
    ensures forall k :: 0 <= k < |gs| && gs[k].arena.None? ==> gs[k].id in r
  {
    if gs == [] then []
    else
      var init := gs[..|gs| - 1];
      var last := gs[|gs| - 1];
      assert forall k :: 0 <= k < |init| ==> gs[k] == init[k];
      FreeIds(init) + if last.arena.None? then [last.id] else []
  }

  /** `get_free_groups`: the ids of the groups that have no arena. */
  function FreeGroups(r: Round): seq<GroupId>
  {
    FreeIds(r.groups.vec)
  }

  /** With no group bound, `FreeIds` lists every group's id, in order. */
  lemma {:induction false} FreeIdsWhenNoneAssigned(gs: seq<Group>)
    requires forall k :: 0 <= k < |gs| ==> gs[k].arena.None?
    ensures FreeIds(gs) == seq(|gs|, k requires 0 <= k < |gs| => gs[k].id)
  {
    if gs != [] {
      var init := gs[..|gs| - 1];
      FreeIdsWhenNoneAssigned(init);
      var ids := seq(|init|, k requires 0 <= k < |init| => init[k].id);
      assert FreeIds(gs) == ids + [gs[|gs| - 1].id];
      assert ids + [gs[|gs| - 1].id] == seq(|gs|, k requires 0 <= k < |gs| => gs[k].id);
    }
  }

  /** When no group of a round is bound, its free groups are all its groups, in order. */
  lemma FreeGroupsWhenNoneAssigned(r: Round)
    requires forall k :: 0 <= k < |r.groups.vec| ==> r.groups.vec[k].arena.None?
    ensures FreeGroups(r) == AllGroups(r)
  {
    FreeIdsWhenNoneAssigned(r.groups.vec);
  }

  /** When every group of a round is bound, it has no free groups. */
  lemma {:induction false} NoFreeGroupsWhenAllAssigned(gs: seq<Group>)
    requires forall k :: 0 <= k < |gs| ==> gs[k].arena.Some?
    ensures FreeIds(gs) == []
  {
    if gs != [] {
      NoFreeGroupsWhenAllAssigned(gs[..|gs| - 1]);
    }
  }

  /** `set_bewerb_id`: the round and every group get the new event id; nothing else changes. */
  method SetBewerbId(r: Round, id: nat) returns (r': Round)
    ensures r'.id == r.id.(bewerbId := id)
    ensures |r'.groups.vec| == |r.groups.vec|
    ensures forall k :: 0 <= k < |r.groups.vec| ==> r'.groups.vec[k] == WithBewerbId(r.groups.vec[k], id)
  {
    var gs := r.groups.vec;
    var i := 0;
    while i < |gs|
      invariant 0 <= i <= |gs| && |gs| == |r.groups.vec|
      invariant forall k :: 0 <= k < i ==> gs[k] == WithBewerbId(r.groups.vec[k], id)
      invariant forall k :: i <= k < |gs| ==> gs[k] == r.groups.vec[k]
    {
      gs := gs[i := WithBewerbId(gs[i], id)];
      i := i + 1;
    }
    r' := Round(r.id.(bewerbId := id), UidContainer(gs));
  }

  /** `HasId::get_id`: the round id. */
  function GetId(r: Round): nat
  {
    r.id.roundId
  }

  /** `HasId::set_id`: the round id, written into the round and into every group. */
  function WithId(r: Round, id: nat): (r': Round)
    ensures GetId(r') == id && r'.id.(roundId := r.id.roundId) == r.id
    ensures |r'.groups.vec| == |r.groups.vec|
    ensures forall k :: 0 <= k < |r.groups.vec| ==> r'.groups.vec[k] == WithRoundId(r.groups.vec[k], id)
  {
    var gs := r.groups.vec;
    Round(r.id.(roundId := id), UidContainer(seq(|gs|, k requires 0 <= k < |gs| => WithRoundId(gs[k], id))))
  }

  /** The loop of `set_id`, equal to `WithId`. */
  method SetId(r: Round, id: nat) returns (r': Round)
    ensures r' == WithId(r, id)
  {
    var gs := r.groups.vec;
    var i := 0;
    while i < |gs|
      invariant 0 <= i <= |gs| && |gs| == |r.groups.vec|
      invariant forall k :: 0 <= k < i ==> gs[k] == WithRoundId(r.groups.vec[k], id)
      invariant forall k :: i <= k < |gs| ==> gs[k] == r.groups.vec[k]
    {
      gs := gs[i := WithRoundId(gs[i], id)];
      i := i + 1;
    }
    r' := Round(r.id.(roundId := id), UidContainer(gs));
  }

  const RoundHasId: HasId<Round> := HasId(GetId, WithId)

  lemma RoundHasIdLawful()
    ensures RoundHasId.Lawful()
  {
  }

  /** `get_group_by_id`: resolve by the group number alone (round.rs:79-81). */
  function GetGroupById(r: Round, gid: GroupId): (i: Option<nat>)
    ensures i.Some? ==> i.value < |r.groups.vec| && r.groups.vec[i.value].id.groupId == gid.groupId
    ensures i.Some? ==> forall k :: 0 <= k < i.value ==> r.groups.vec[k].id.groupId != gid.groupId
    ensures i.None? ==> forall k :: 0 <= k < |r.groups.vec| ==> r.groups.vec[k].id.groupId != gid.groupId
  {
    Find(r.groups.vec, gid.groupId, GroupHasId)
  }

  /** With distinct group numbers, every id listed by `get_all_groups` resolves back to its own group. */
  lemma AllGroupsResolve(r: Round, k: nat)
    requires DistinctIds(Ids(r.groups.vec, GroupHasId))
    requires k < |r.groups.vec|
    ensures GetGroupById(r, AllGroups(r)[k]) == Some(k)
  {
    var ids := Ids(r.groups.vec, GroupHasId);
    assert ids[k] == r.groups.vec[k].id.groupId;
  }

  // ---------------------------------------------------------------------
  // Saved form (round.rs:20-47)
  // ---------------------------------------------------------------------

  datatype RoundSaveable = RoundSaveable(id: RoundId, groups: seq<GroupSaveable>)

  /** `From<&Round> for RoundSaveable`: the id and the groups' saved forms in order. */
  function ToSaveable(r: Round): RoundSaveable
  {
    var gs := r.groups.vec;
    RoundSaveable(r.id, seq(|gs|, k requires 0 <= k < |gs| => Groups.ToSaveable(gs[k])))
  }

  /** The round `from_saveable` builds: the saved groups inserted in order, ids untouched. */
  function Loaded(rs: RoundSaveable): Round
  {
    Round(rs.id, UidContainer(seq(|rs.groups|, k requires 0 <= k < |rs.groups| => Groups.FromSaveable(rs.groups[k]))))
  }

  /** `from_saveable`: `insert` each saved group, which keeps its id. */
  method FromSaveable(rs: RoundSaveable) returns (r: Round)
    ensures r == Loaded(rs)
  {
    var groups: UidContainer<Group> := UidContainer([]);
    var i := 0;
    while i < |rs.groups|
      invariant 0 <= i <= |rs.groups|
      invariant |groups.vec| == i
      invariant forall k :: 0 <= k < i ==> groups.vec[k] == Groups.FromSaveable(rs.groups[k])
    {
      groups := Insert(groups, Groups.FromSaveable(rs.groups[i]));
      i := i + 1;
    }
    r := Round(rs.id, groups);
  }

  /** Loading keeps the saved group ids and their order, and saving the result gives the input back. */
  lemma LoadedKeepsIds(rs: RoundSaveable)
    ensures AllGroups(Loaded(rs)) == seq(|rs.groups|, k requires 0 <= k < |rs.groups| => rs.groups[k].id)
    ensures ToSaveable(Loaded(rs)) == rs
  {
  }

  /** Saving then loading a round gives it back with every arena binding cleared. */
  lemma SaveLoadClearsArenas(r: Round)
    ensures Loaded(ToSaveable(r)).id == r.id
    ensures |Loaded(ToSaveable(r)).groups.vec| == |r.groups.vec|
    ensures forall k :: 0 <= k < |r.groups.vec| ==>
              Loaded(ToSaveable(r)).groups.vec[k] == SetArena(r.groups.vec[k], None)
    ensures FreeGroups(Loaded(ToSaveable(r))) == AllGroups(r)
  {
    FreeGroupsWhenNoneAssigned(Loaded(ToSaveable(r)));
  }
}
