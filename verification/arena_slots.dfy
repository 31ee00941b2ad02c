/**
 * An arena slot (arena_slot.rs): one arena in one timeslot of one day, to
 * which at most one group is bound.  The binding is held as the group's id.
 */
module ArenaSlots {
  import opened Common
  import opened Identifiers
  import opened Container
  import opened Groups
  import opened Bewerbs

  /** The wire form of an arena slot id (`tournament::ArenaIdentifier`). */
  datatype ArenaIdentifier = ArenaIdentifier(dayId: nat, timeslotId: nat, arenaId: nat)

  /** `From<&ArenaSlotId> for ArenaIdentifier`. */
  function ToIdentifier(id: ArenaSlotId): ArenaIdentifier
  {
    ArenaIdentifier(id.dayId, id.timeslotId, id.arenaSlotId)
  }

  /** `From<ArenaIdentifier> for ArenaSlotId`. */
  function FromIdentifier(id: ArenaIdentifier): ArenaSlotId
  {
    ArenaSlotId(id.dayId, id.timeslotId, id.arenaId)
  }

  /** The two conversions are inverse to each other, in both directions. */
  lemma IdentifierRoundTrip(id: ArenaSlotId, wire: ArenaIdentifier)
    ensures FromIdentifier(ToIdentifier(id)) == id
    ensures ToIdentifier(FromIdentifier(wire)) == wire
  {
  }

  /** The conversion loses nothing: distinct slot ids have distinct wire forms. */
  lemma IdentifierInjective(a: ArenaSlotId, b: ArenaSlotId)
    requires ToIdentifier(a) == ToIdentifier(b)
    ensures a == b
  {
    IdentifierRoundTrip(a, ToIdentifier(b));
    IdentifierRoundTrip(b, ToIdentifier(b));
  }

  datatype ArenaSlot = ArenaSlot(id: ArenaSlotId, group: Option<GroupId>)

  /** `ArenaSlot::new`: the given id and no group. */
  function NewArenaSlot(id: ArenaSlotId): (s: ArenaSlot)
    ensures s.id == id && GetGroup(s).None?
  {
    ArenaSlot(id, None)
  }

  function GetGroup(s: ArenaSlot): Option<GroupId>
  {
    s.group
  }

  /** `set_group`: a later `get_group` returns `x`; the slot id is kept. */
  function SetGroup(s: ArenaSlot, x: Option<GroupId>): (r: ArenaSlot)
    ensures GetGroup(r) == x && r.id == s.id
  {
    s.(group := x)
  }

  /** `HasId::get_id`: the arena number within its timeslot. */
  function GetId(s: ArenaSlot): nat
  {
    s.id.arenaSlotId
  }

  /** `HasId::set_id`: only the arena number changes. */
  function WithId(s: ArenaSlot, id: nat): (r: ArenaSlot)
    ensures GetId(r) == id
    ensures r.id.dayId == s.id.dayId && r.id.timeslotId == s.id.timeslotId && r.group == s.group
  {
    s.(id := s.id.(arenaSlotId := id))
  }

  const ArenaSlotHasId: HasId<ArenaSlot> := HasId(GetId, WithId)

  lemma ArenaSlotHasIdLawful()
    ensures ArenaSlotHasId.Lawful()
  {
  }

  // ---------------------------------------------------------------------
  // Saved form and its reconstruction against the events
  // ---------------------------------------------------------------------

  datatype ArenaSlotSaveable = ArenaSlotSaveable(id: ArenaSlotId, group: Option<GroupId>)

  /** `From<&ArenaSlot> for ArenaSlotSaveable`: the id, and the bound group's id or None. */
  function ToSaveable(s: ArenaSlot): ArenaSlotSaveable
  {
    ArenaSlotSaveable(s.id, s.group)
  }

  /**
   * `from_arena_slot_saveable`: the slot keeps its saved id.  If the saved
   * group id resolves in the events, slot and group are bound to each other
   * (the slot records the group's own id, the group records the slot);
   * otherwise the slot comes back free and the events are untouched.
   */
  function FromSaveable(s: ArenaSlotSaveable, bs: seq<Bewerb>): (r: (ArenaSlot, seq<Bewerb>))
    ensures r.0.id == s.id
    ensures SameShape(bs, r.1)
    ensures r.0.group.Some? <==> s.group.Some? && GroupPathOf(bs, s.group.value).Some?
    ensures r.0.group.None? ==> r.1 == bs
    ensures r.0.group.Some? ==>
              var p := GroupPathOf(bs, s.group.value).value;
              && r.0.group.value == GroupAt(bs, p).id
              && GroupAt(r.1, p) == SetArena(GroupAt(bs, p), Some(s.id))
              && forall q :: IsGroupPath(bs, q) && q != p ==> GroupAt(r.1, q) == GroupAt(bs, q)
  {
    match s.group
    case None => (ArenaSlot(s.id, None), bs)
    case Some(gid) =>
      match GroupPathOf(bs, gid)
      case None => (ArenaSlot(s.id, None), bs)
      case Some(p) =>
        var g := GroupAt(bs, p);
        WithGroupFrame(bs, p, SetArena(g, Some(s.id)));
        (ArenaSlot(s.id, Some(g.id)), WithGroup(bs, p, SetArena(g, Some(s.id))))
  }

  /**
   * Saving then loading gives the slot back whenever its group resolves to
   * a group whose own id is the one recorded; a slot without a group comes
   * back equal as well.
   */
  lemma SaveLoadRoundTrip(s: ArenaSlot, bs: seq<Bewerb>)
    requires s.group.Some? ==>
               var p := GroupPathOf(bs, s.group.value);
               p.Some? && GroupAt(bs, p.value).id == s.group.value
    ensures FromSaveable(ToSaveable(s), bs).0 == s
  {
  }

  /** The per-arena view returned to clients (`tournament::ArenaData`). */
  datatype ArenaData = ArenaData(id: Option<ArenaIdentifier>, group: Option<GroupId>)

  /** `From<&ArenaSlot> for ArenaData`. */
  function ToArenaData(s: ArenaSlot): ArenaData
  {
    ArenaData(Some(ToIdentifier(s.id)), s.group)
  }

  /** The client view and the saved form carry the same id and the same group. */
  lemma ArenaDataAgreesWithSaveable(s: ArenaSlot)
    ensures ToArenaData(s).id.Some?
    ensures FromIdentifier(ToArenaData(s).id.value) == ToSaveable(s).id
    ensures ToArenaData(s).group == ToSaveable(s).group
  {
    IdentifierRoundTrip(s.id, ToIdentifier(s.id));
  }
}
