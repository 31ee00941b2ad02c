/**
 * A group (group.rs): one pool of fencers in one round.  The source's
 * struct has no arena field although tournament_core.rs reads and writes
 * one (`get_arena`, `set_arena`); here it is the id of the arena slot the
 * group is bound to, if any.
 */
module Groups {
  import opened Common
  import opened Identifiers
  import opened Container

  datatype Group = Group(id: GroupId, arena: Option<ArenaSlotId>, fencers: seq<nat>)

  /** `Group::new`: a group of round `rid`, group id 0, no arena, no fencers. */
  function NewGroup(rid: RoundId): (g: Group)
    ensures g.id.bewerbName == rid.bewerbName && g.id.bewerbId == rid.bewerbId
    ensures g.id.roundId == rid.roundId && g.id.groupId == 0
    ensures g.arena.None? && g.fencers == []
  {
    Group(GroupId(rid.bewerbName, rid.bewerbId, rid.roundId, 0), None, [])
  }

  /** `set_bewerb_id`: only the stored event id changes. */
  function WithBewerbId(g: Group, id: nat): (r: Group)
    ensures r.id.bewerbId == id
    ensures r.(id := r.id.(bewerbId := g.id.bewerbId)) == g
  {
    g.(id := g.id.(bewerbId := id))
  }

  /** `set_round_id`: only the stored round id changes. */
  function WithRoundId(g: Group, id: nat): (r: Group)
    ensures r.id.roundId == id
    ensures r.(id := r.id.(roundId := g.id.roundId)) == g
  {
    g.(id := g.id.(roundId := id))
  }

  /** `HasId::get_id`: the group's own number within its round. */
  function GetId(g: Group): nat
  {
    g.id.groupId
  }

  /** `HasId::set_id`: only the group number changes. */
  function WithId(g: Group, id: nat): (r: Group)
    ensures GetId(r) == id
    ensures r.(id := r.id.(groupId := g.id.groupId)) == g
  {
    g.(id := g.id.(groupId := id))
  }

  const GroupHasId: HasId<Group> := HasId(GetId, WithId)

  lemma GroupHasIdLawful()
    ensures GroupHasId.Lawful()
  {
  }

  /** The arena accessors used at tournament_core.rs:110,120,137,162. */
  function GetArena(g: Group): Option<ArenaSlotId>
  {
    g.arena
  }

  function SetArena(g: Group, a: Option<ArenaSlotId>): (r: Group)
    ensures GetArena(r) == a
    ensures r.id == g.id && r.fencers == g.fencers
  {
    g.(arena := a)
  }

  /**
   * The saved form of a group.  group.rs does not define it although
   * round.rs:23,40 uses it: it keeps the id and the member fencer ids; the
   * arena binding is saved on the arena slot's side and restored from there.
   */
  datatype GroupSaveable = GroupSaveable(id: GroupId, fencers: seq<nat>)

  function ToSaveable(g: Group): GroupSaveable
  {
    GroupSaveable(g.id, g.fencers)
  }

  function FromSaveable(s: GroupSaveable): Group
  {
    Group(s.id, None, s.fencers)
  }

  /** Saving then loading a group gives it back with its arena binding cleared. */
  lemma SaveableRoundTrip(g: Group)
    ensures FromSaveable(ToSaveable(g)) == SetArena(g, None)
    ensures ToSaveable(FromSaveable(ToSaveable(g))) == ToSaveable(g)
  {
  }
}
