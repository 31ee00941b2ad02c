/**
 * An event (Bewerb, bewerb.rs) owning its rounds, and the lookup of a group
 * through the events container: event by event id, round by round id, group
 * by group number (tournament_core.rs:80-87).
 */
module Bewerbs {
  import opened Common
  import opened Identifiers
  import opened Container
  import opened Groups
  import opened Rounds

  datatype Bewerb = Bewerb(id: BewerbId, rounds: UidContainer<Round>)

  /** Round `i` of an event built with `n` groups per round, for event id `bid`. */
  predicate IsFreshRound(r: Round, bid: BewerbId, i: nat, n: nat)
  {
    && r.id == RoundId(bid.bewerbName, bid.bewerbId, i)
    && |r.groups.vec| == n
    && forall k :: 0 <= k < n ==> r.groups.vec[k] == FreshGroup(bid, i, k)
  }

  /**
   * `Bewerb::new`: event id 0 and `nRounds` rounds pushed into an empty
   * container.  Pushing renumbers each round 0..nRounds-1 and writes that
   * number into its groups (Round's `set_id`).
   */
  method NewBewerb(name: string, nRounds: nat, nGroups: nat) returns (b: Bewerb)
    ensures b.id == BewerbId(name, 0)
    ensures |b.rounds.vec| == nRounds
    ensures forall i :: 0 <= i < nRounds ==> IsFreshRound(b.rounds.vec[i], b.id, i, nGroups)
  {
    b := Bewerb(BewerbId(name, 0), UidContainer([]));
    RoundHasIdLawful();
    var i := 0;
    while i < nRounds
      invariant 0 <= i <= nRounds
      invariant b.id == BewerbId(name, 0)
      invariant |b.rounds.vec| == i
      invariant forall j :: 0 <= j < i ==> IsFreshRound(b.rounds.vec[j], b.id, j, nGroups)
    {
      var round := NewRound(b.id, nGroups);
      assert forall j :: 0 <= j < i ==> Ids(b.rounds.vec, RoundHasId)[j] == j;
      NewIdAfterRange(Ids(b.rounds.vec, RoundHasId));
      var rounds := Push(b.rounds, round, RoundHasId);
      b := b.(rounds := rounds);
      assert b.rounds.vec[i] == Rounds.WithId(round, i);
      i := i + 1;
    }
  }

  /** The ids of all groups of the rounds `rs`, round after round. */
  function GroupsOf(rs: seq<Round>): (r: seq<GroupId>)
    ensures forall i, k :: 0 <= i < |rs| && 0 <= k < |rs[i].groups.vec| ==> rs[i].groups.vec[k].id in r
    ensures forall x :: x in r ==>
              exists i, k :: 0 <= i < |rs| && 0 <= k < |rs[i].groups.vec| && rs[i].groups.vec[k].id == x
  {
    if rs == [] then []
    else
      var init := rs[..|rs| - 1];
      var last := rs[|rs| - 1];
      assert forall i :: 0 <= i < |init| ==> rs[i] == init[i];
      assert forall k :: 0 <= k < |last.groups.vec| ==> AllGroups(last)[k] == last.groups.vec[k].id;
      GroupsOf(init) + AllGroups(last)
  }

  /** The first id listed is that of the first group of the first round. */
  lemma {:induction false} GroupsOfFirst(rs: seq<Round>)
    requires |rs| > 0 && |rs[0].groups.vec| > 0
    ensures |GroupsOf(rs)| > 0 && GroupsOf(rs)[0] == rs[0].groups.vec[0].id
  {
    if |rs| > 1 {
      GroupsOfFirst(rs[..|rs| - 1]);
    }
  }

  /** `get_all_groups`: append each round's group ids in round order. */
  method GetAllGroups(b: Bewerb) returns (res: seq<GroupId>)
    ensures res == GroupsOf(b.rounds.vec)
  {
    res := [];
    var i := 0;
    while i < |b.rounds.vec|
      invariant 0 <= i <= |b.rounds.vec|
      invariant res == GroupsOf(b.rounds.vec[..i])
    {
      assert b.rounds.vec[..i + 1][..i] == b.rounds.vec[..i];
      var roundGroups := AllGroups(b.rounds.vec[i]);
      res := res + roundGroups;
      i := i + 1;
    }
    assert b.rounds.vec[..|b.rounds.vec|] == b.rounds.vec;
  }

  /** If every round has `n` groups, the event lists |rounds| * n group ids. */
  lemma {:induction false} GroupsOfCount(rs: seq<Round>, n: nat)
    requires forall i :: 0 <= i < |rs| ==> |rs[i].groups.vec| == n
    ensures |GroupsOf(rs)| == |rs| * n
  {
    if rs != [] {
      GroupsOfCount(rs[..|rs| - 1], n);
      assert |rs| * n == (|rs| - 1) * n + n;
    }
  }

  /** A fresh event with r rounds of g groups lists r * g groups. */
  lemma FreshEventGroupCount(b: Bewerb, nRounds: nat, nGroups: nat)
    requires |b.rounds.vec| == nRounds
    requires forall i :: 0 <= i < nRounds ==> IsFreshRound(b.rounds.vec[i], b.id, i, nGroups)
    ensures |GroupsOf(b.rounds.vec)| == nRounds * nGroups
  {
    GroupsOfCount(b.rounds.vec, nGroups);
  }

  /** `HasId::get_id`: the event id. */
  function GetId(b: Bewerb): nat
  {
    b.id.bewerbId
  }

  /** `HasId::set_id`: only the event's own id changes; its rounds and groups keep theirs. */
  function WithId(b: Bewerb, id: nat): (r: Bewerb)
    ensures GetId(r) == id && r.id.bewerbName == b.id.bewerbName
    ensures r.rounds == b.rounds
  {
    b.(id := b.id.(bewerbId := id))
  }

  const BewerbHasId: HasId<Bewerb> := HasId(GetId, WithId)

  lemma BewerbHasIdLawful()
    ensures BewerbHasId.Lawful()
  {
  }

  /**
   * The lookup the source calls `Bewerb::get_group_by_id` without defining
   * it: the first round with the group's round id, then that round's
   * `get_group_by_id`.  Result: (round position, group position).
   */
  function GetGroupById(b: Bewerb, gid: GroupId): (p: Option<(nat, nat)>)
    ensures p.Some? ==> p.value.0 < |b.rounds.vec|
    ensures p.Some? ==> b.rounds.vec[p.value.0].id.roundId == gid.roundId
    ensures p.Some? ==> p.value.1 < |b.rounds.vec[p.value.0].groups.vec|
    ensures p.Some? ==> b.rounds.vec[p.value.0].groups.vec[p.value.1].id.groupId == gid.groupId
  {
    match Find(b.rounds.vec, gid.roundId, RoundHasId)
    case None => None
    case Some(ri) =>
      match Rounds.GetGroupById(b.rounds.vec[ri], gid)
      case None => None
      case Some(gi) => Some((ri, gi))
  }

  /**
   * The event's lookup is the first round carrying the group's round id,
   * asked for the group: it answers exactly when that round does, with
   * that round's answer, and no later round with the same id is asked.
   */
  lemma GetGroupByIdFirstRound(b: Bewerb, gid: GroupId, i: nat)
    requires i < |b.rounds.vec| && b.rounds.vec[i].id.roundId == gid.roundId
    requires forall j :: 0 <= j < i ==> b.rounds.vec[j].id.roundId != gid.roundId
    ensures GetGroupById(b, gid).Some? <==> Rounds.GetGroupById(b.rounds.vec[i], gid).Some?
    ensures GetGroupById(b, gid).Some? ==>
              GetGroupById(b, gid).value == (i, Rounds.GetGroupById(b.rounds.vec[i], gid).value)
  {
    FindIsFirst(b.rounds.vec, gid.roundId, RoundHasId, i);
  }

  /** Without a round carrying the group's round id, the event's lookup finds nothing. */
  lemma GetGroupByIdNoRound(b: Bewerb, gid: GroupId)
    requires forall j :: 0 <= j < |b.rounds.vec| ==> b.rounds.vec[j].id.roundId != gid.roundId
    ensures GetGroupById(b, gid).None?
  {
    assert Find(b.rounds.vec, gid.roundId, RoundHasId).None?;
  }

  // ---------------------------------------------------------------------
  // Positions of groups inside the events container
  // ---------------------------------------------------------------------

  /** Where a group lives: event position, round position, group position. */
  datatype GroupPath = GroupPath(b: nat, r: nat, g: nat)

  predicate IsGroupPath(bs: seq<Bewerb>, p: GroupPath)
  {
    p.b < |bs| && p.r < |bs[p.b].rounds.vec| && p.g < |bs[p.b].rounds.vec[p.r].groups.vec|
  }

  function GroupAt(bs: seq<Bewerb>, p: GroupPath): Group
    requires IsGroupPath(bs, p)
  {
    bs[p.b].rounds.vec[p.r].groups.vec[p.g]
  }

  /** Replace the group at `p` (the write through `get_mut`). */
  function WithGroup(bs: seq<Bewerb>, p: GroupPath, g: Group): seq<Bewerb>
    requires IsGroupPath(bs, p)
  {
    var b := bs[p.b];
    var r := b.rounds.vec[p.r];
    var r' := r.(groups := UidContainer(r.groups.vec[p.g := g]));
    bs[p.b := b.(rounds := UidContainer(b.rounds.vec[p.r := r']))]
  }

  /**
   * `get_group_by_id_internal` (tournament_core.rs:80-87): the first event
   * with the group's event id, then `Bewerb::get_group_by_id`.
   */
  function GroupPathOf(bs: seq<Bewerb>, gid: GroupId): (p: Option<GroupPath>)
    ensures p.Some? ==> IsGroupPath(bs, p.value)
    ensures p.Some? ==> GetId(bs[p.value.b]) == gid.bewerbId
    ensures p.Some? ==> forall j :: 0 <= j < p.value.b ==> GetId(bs[j]) != gid.bewerbId
    ensures p.Some? ==> GetGroupById(bs[p.value.b], gid) == Some((p.value.r, p.value.g))
    ensures var first := Find(bs, gid.bewerbId, BewerbHasId);
            first.Some? ==> (p.Some? <==> GetGroupById(bs[first.value], gid).Some?)
    ensures (forall j :: 0 <= j < |bs| ==> GetId(bs[j]) != gid.bewerbId) ==> p.None?
  {
    match Find(bs, gid.bewerbId, BewerbHasId)
    case None => None
    case Some(bi) =>
      match GetGroupById(bs[bi], gid)
      case None => None
      case Some(rg) => Some(GroupPath(bi, rg.0, rg.1))
  }

  /** The lookup answers for the first event carrying the group's event id, and for no later one. */
  lemma GroupPathOfFirstEvent(bs: seq<Bewerb>, gid: GroupId, i: nat)
    requires i < |bs| && GetId(bs[i]) == gid.bewerbId
    requires forall j :: 0 <= j < i ==> GetId(bs[j]) != gid.bewerbId
    ensures GroupPathOf(bs, gid).Some? <==> GetGroupById(bs[i], gid).Some?
    ensures GroupPathOf(bs, gid).Some? ==> GroupPathOf(bs, gid).value.b == i
  {
    FindIsFirst(bs, gid.bewerbId, BewerbHasId, i);
  }

  /** Appending an event does not change where an id that already resolves is found. */
  lemma GroupPathOfAppend(bs: seq<Bewerb>, b: Bewerb, gid: GroupId)
    requires GroupPathOf(bs, gid).Some?
    ensures GroupPathOf(bs + [b], gid) == GroupPathOf(bs, gid)
  {
    FindAppend(bs, b, gid.bewerbId, BewerbHasId);
    var i := Find(bs, gid.bewerbId, BewerbHasId).value;
    assert (bs + [b])[i] == bs[i];
  }

  /** The shape of the events tree: all event, round and group ids, position by position. */
  predicate SameShape(bs: seq<Bewerb>, bs': seq<Bewerb>)
  {
    && |bs| == |bs'|
    && forall i :: 0 <= i < |bs| ==>
         && bs[i].id == bs'[i].id
         && |bs[i].rounds.vec| == |bs'[i].rounds.vec|
         && forall j :: 0 <= j < |bs[i].rounds.vec| ==>
              && bs[i].rounds.vec[j].id == bs'[i].rounds.vec[j].id
              && |bs[i].rounds.vec[j].groups.vec| == |bs'[i].rounds.vec[j].groups.vec|
              && forall k :: 0 <= k < |bs[i].rounds.vec[j].groups.vec| ==>
                   bs[i].rounds.vec[j].groups.vec[k].id == bs'[i].rounds.vec[j].groups.vec[k].id
  }

  /** Having the same shape is transitive. */
  lemma SameShapeTrans(bs: seq<Bewerb>, bs': seq<Bewerb>, bs'': seq<Bewerb>)
    requires SameShape(bs, bs') && SameShape(bs', bs'')
    ensures SameShape(bs, bs'')
  {
  }

  /** Trees of the same shape have the same group positions. */
  lemma SameShapeSamePaths(bs: seq<Bewerb>, bs': seq<Bewerb>)
    requires SameShape(bs, bs')
    ensures forall p :: IsGroupPath(bs, p) <==> IsGroupPath(bs', p)
  {
  }

  /** Within one event of two trees of the same shape, a group id resolves alike. */
  lemma SameShapeSameEventLookup(bs: seq<Bewerb>, bs': seq<Bewerb>, i: nat, gid: GroupId)
    requires SameShape(bs, bs') && i < |bs|
    ensures GetGroupById(bs[i], gid) == GetGroupById(bs'[i], gid)
  {
    var rs, rs' := bs[i].rounds.vec, bs'[i].rounds.vec;
    FindSameIds(rs, rs', gid.roundId, RoundHasId);
    var ri := Find(rs, gid.roundId, RoundHasId);
    if ri.Some? {
      FindSameIds(rs[ri.value].groups.vec, rs'[ri.value].groups.vec, gid.groupId, GroupHasId);
    }
  }

  /** Lookups only look at ids, so trees of the same shape resolve every group id alike. */
  lemma SameShapeSameLookup(bs: seq<Bewerb>, bs': seq<Bewerb>, gid: GroupId)
    requires SameShape(bs, bs')
    ensures GroupPathOf(bs, gid) == GroupPathOf(bs', gid)
  {
    FindSameIds(bs, bs', gid.bewerbId, BewerbHasId);
    var bi := Find(bs, gid.bewerbId, BewerbHasId);
    if bi.Some? {
      SameShapeSameEventLookup(bs, bs', bi.value, gid);
    }
  }

  /** Writing a group with the same id back keeps the shape, and changes that group only. */
  lemma WithGroupFrame(bs: seq<Bewerb>, p: GroupPath, g: Group)
    requires IsGroupPath(bs, p) && g.id == GroupAt(bs, p).id
    ensures SameShape(bs, WithGroup(bs, p, g))
    ensures forall q :: IsGroupPath(bs, q) ==>
              GroupAt(WithGroup(bs, p, g), q) == if q == p then g else GroupAt(bs, q)
  {
  }

  /** Writing a group with the same id back changes no lookup. */
  lemma WithGroupKeepsLookups(bs: seq<Bewerb>, p: GroupPath, g: Group)
    requires IsGroupPath(bs, p) && g.id == GroupAt(bs, p).id
    ensures forall gid :: GroupPathOf(WithGroup(bs, p, g), gid) == GroupPathOf(bs, gid)
    ensures forall q :: IsGroupPath(WithGroup(bs, p, g), q) <==> IsGroupPath(bs, q)
  {
    WithGroupFrame(bs, p, g);
    forall gid ensures GroupPathOf(WithGroup(bs, p, g), gid) == GroupPathOf(bs, gid) {
      SameShapeSameLookup(bs, WithGroup(bs, p, g), gid);
    }
    SameShapeSamePaths(bs, WithGroup(bs, p, g));
  }
}
