/**
 * The tournament (tournament_core.rs): a name, the days and the events in
 * two id containers, and the operations that change them in place.  The
 * assignment of groups to arena slots is specified by the step functions of
 * the `Assignment` module; each method here is proved equal to its step.
 */
module TournamentCore {
  import opened Common
  import opened Identifiers
  import opened Container
  import opened Groups
  import opened Rounds
  import opened Bewerbs
  import opened ArenaSlots
  import opened Days
  import opened Assignment

  class Tournament {
    var name: string
    var days: UidContainer<Day>
    var bewerbs: UidContainer<Bewerb>

    /** The days and the events, as the assignment functions see them. */
    function State(): Graph
      reads this
    {
      Graph(days.vec, bewerbs.vec)
    }

    /** `Tournament::new`: no name, no days, no events; trivially consistent. */
    constructor ()
      ensures name == "" && days.vec == [] && bewerbs.vec == []
      ensures Consistent(State())
    {
      name := "";
      days := UidContainer([]);
      bewerbs := UidContainer([]);
    }

    /**
     * `add_day`: count up from 0 to the first id no day has, give it to the
     * day and push the day, which gives the same id again and writes it
     * into the day's timeslots.  A day with no bound arena slot keeps the
     * tournament consistent.
     */
    method AddDay(day: Day)
      modifies this
      ensures name == old(name) && bewerbs == old(bewerbs)
      ensures days.vec == old(days.vec) + [Days.WithId(day, NewId(Ids(old(days.vec), DayHasId)))]
      ensures Ids(days.vec, DayHasId) == Ids(old(days.vec), DayHasId) + [NewId(Ids(old(days.vec), DayHasId))]
      ensures NewId(Ids(old(days.vec), DayHasId)) !in Ids(old(days.vec), DayHasId)
      ensures Consistent(old(State())) && DayFree(day) ==> Consistent(State())
    {
      ghost var w := State();
      var ids := Ids(days.vec, DayHasId);
      var id := 0;
      while id in ids
        invariant forall j :: 0 <= j < id ==> j in ids
        invariant name == old(name) && days == old(days) && bewerbs == old(bewerbs)
        decreases |ids| - id
      {
        RangeCovered(ids, id + 1);
        id := id + 1;
      }
      var d := day.(id := id);
      assert Days.WithId(d, NewId(ids)) == Days.WithId(day, NewId(ids));
      DayHasIdLawful();
      days := Push(days, d, DayHasId);
      if Consistent(w) && DayFree(day) {
        assert DayFree(Days.WithId(day, NewId(ids)));
        AddFreeDayKeepsConsistent(w, Days.WithId(day, NewId(ids)));
      }
    }

    /** `remove_day`: drop every day with this id; the events are not touched. */
    method RemoveDay(id: nat)
      modifies this
      ensures name == old(name) && bewerbs == old(bewerbs)
      ensures days.vec == Retained(old(days.vec), id, DayHasId)
      ensures id !in Ids(days.vec, DayHasId)
    {
      days := Remove(days, id, DayHasId);
    }

    /** `get_simple_days`: the client view of every day, in container order. */
    function SimpleDays(): (r: seq<SimpleDay>)
      reads this
      ensures |r| == |days.vec|
      ensures forall k :: 0 <= k < |r| ==>
                && r[k].id == days.vec[k].id
                && r[k].numberTimeSlots == days.vec[k].nTs
                && r[k].numberArenas == days.vec[k].nKp
                && r[k].date.Some? && FromTimestamp(r[k].date.value) == days.vec[k].date
    {
      var ds := days.vec;
      seq(|ds|, k requires 0 <= k < |ds| => ToSimpleDay(ds[k]))
    }

    /**
     * `add_bewerb`: build an event and push it.  The arguments are passed on
     * in their order, so the second one becomes the number of rounds and the
     * third the number of groups per round.  The new event gets the smallest
     * unused event id, its groups keep the event id 0 they were built with,
     * and since none of them is bound the tournament stays consistent.
     */
    method AddBewerb(bewerbName: string, nGroups: nat, nRounds: nat)
      modifies this
      ensures name == old(name) && days == old(days)
      ensures |bewerbs.vec| == |old(bewerbs.vec)| + 1 && bewerbs.vec[..|old(bewerbs.vec)|] == old(bewerbs.vec)
      ensures var b := bewerbs.vec[|old(bewerbs.vec)|];
              && b.id == BewerbId(bewerbName, NewId(Ids(old(bewerbs.vec), BewerbHasId)))
              && |b.rounds.vec| == nGroups
              && forall i :: 0 <= i < nGroups ==> IsFreshRound(b.rounds.vec[i], BewerbId(bewerbName, 0), i, nRounds)
      ensures Consistent(old(State())) ==> Consistent(State())
    {
      ghost var w := State();
      var b := NewBewerb(bewerbName, nGroups, nRounds);
      BewerbHasIdLawful();
      bewerbs := Push(bewerbs, b, BewerbHasId);
      var b' := Bewerbs.WithId(b, NewId(Ids(w.bewerbs, BewerbHasId)));
      assert bewerbs.vec == w.bewerbs + [b'];
      assert BewerbFree(b') by {
        forall r, g | 0 <= r < |b'.rounds.vec| && 0 <= g < |b'.rounds.vec[r].groups.vec|
          ensures b'.rounds.vec[r].groups.vec[g].arena.None?
        {
          assert IsFreshRound(b.rounds.vec[r], b.id, r, nRounds);
        }
      }
      if Consistent(w) {
        AddFreeBewerbKeepsConsistent(w, b');
      }
    }

    /**
     * `remove_bewerb`: nothing happens for an unknown id; otherwise every
     * group id the first event with that id lists is freed in turn (errors
     * ignored), then every event with that id is dropped.
     */
    method RemoveBewerb(id: nat)
      modifies this
      ensures name == old(name)
      ensures State() == RemoveBewerbStep(old(State()), id)
      ensures id !in Ids(bewerbs.vec, BewerbHasId)
    {
      var found := Find(bewerbs.vec, id, BewerbHasId);
      if found.None? {
        assert Get(bewerbs, id, BewerbHasId).None?;
        return;
      }
      var groups := GetAllGroups(bewerbs.vec[found.value]);
      FreeupGroups(groups);
      bewerbs := Remove(bewerbs, id, BewerbHasId);
    }

    /** The loop of `remove_bewerb`: `freeup_group` on each id in turn, its result ignored. */
    method FreeupGroups(groups: seq<GroupId>)
      modifies this
      ensures name == old(name)
      ensures State() == FreeAll(old(State()), groups)
    {
      ghost var w := State();
      var i := 0;
      while i < |groups|
        invariant 0 <= i <= |groups|
        invariant name == old(name)
        invariant FreeAll(State(), groups[i..]) == FreeAll(w, groups)
      {
        ghost var before := State();
        assert groups[i..][0] == groups[i] && groups[i..][1..] == groups[i + 1..];
        var status := FreeupGroup(groups[i]);
        assert FreeAll(before, groups[i..]) == FreeAll(State(), groups[i + 1..]);
        i := i + 1;
      }
      assert groups[i..] == [];
    }

    /** `get_group_by_id`: the group the id resolves to, found in the first event with its event id. */
    function GetGroupById(gid: GroupId): (r: Option<Group>)
      reads this
      ensures r.Some? <==> GroupPathOf(bewerbs.vec, gid).Some?
      ensures r.Some? ==> r.value.id.groupId == gid.groupId
      ensures r.Some? ==> var p := GroupPathOf(bewerbs.vec, gid).value;
                            && GroupAt(bewerbs.vec, p) == r.value
                            && Bewerbs.GetId(bewerbs.vec[p.b]) == gid.bewerbId
                            && (forall j :: 0 <= j < p.b ==> Bewerbs.GetId(bewerbs.vec[j]) != gid.bewerbId)
                            && bewerbs.vec[p.b].rounds.vec[p.r].id.roundId == gid.roundId
                            && (forall j :: 0 <= j < p.r ==> bewerbs.vec[p.b].rounds.vec[j].id.roundId != gid.roundId)
      ensures (forall j :: 0 <= j < |bewerbs.vec| ==> Bewerbs.GetId(bewerbs.vec[j]) != gid.bewerbId) ==> r.None?
    {
      match GroupPathOf(bewerbs.vec, gid)
      case None => None
      case Some(p) => Some(GroupAt(bewerbs.vec, p))
    }

    /** `get_arena_by_id`: the arena slot the id resolves to, found in the first day with its day id. */
    function GetArenaById(aid: ArenaSlotId): (r: Option<ArenaSlot>)
      reads this
      ensures r.Some? <==> ArenaPathOf(days.vec, aid).Some?
      ensures r.Some? ==> r.value.id == aid
      ensures r.Some? ==> r.value == ArenaAt(days.vec, ArenaPathOf(days.vec, aid).value)
      ensures (forall j :: 0 <= j < |days.vec| ==> Days.GetId(days.vec[j]) != aid.dayId) ==> r.None?
    {
      match ArenaPathOf(days.vec, aid)
      case None => None
      case Some(p) => Some(ArenaAt(days.vec, p))
    }

    /** `freeup_group`, in place; equal to `FreeupGroupStep`, so it keeps the tournament consistent. */
    method FreeupGroup(gid: GroupId) returns (res: Status)
      modifies this
      ensures name == old(name)
      ensures (res, State()) == FreeupGroupStep(old(State()), gid)
      ensures Consistent(old(State())) ==> Consistent(State())
    {
      ghost var w := State();
      if Consistent(w) {
        FreeupGroupKeepsConsistent(w, gid);
      }
      var gp := GroupPathOf(bewerbs.vec, gid);
      if gp.None? {
        return Err(InvalidInput);
      }
      var group := GroupAt(bewerbs.vec, gp.value);
      if group.arena.None? {
        return Ok;
      }
      var ap := ArenaPathOf(days.vec, group.arena.value);
      if ap.Some? {
        // The slot keeps its id, so the group's position does not move.
        days := UidContainer(WithArena(days.vec, ap.value, SetGroup(ArenaAt(days.vec, ap.value), None)));
      }
      bewerbs := UidContainer(WithGroup(bewerbs.vec, gp.value, SetArena(group, None)));
      return Ok;
    }

    /** `freeup_arena`, in place; equal to `FreeupArenaStep`, so it keeps the tournament consistent. */
    method FreeupArena(aid: ArenaSlotId) returns (res: Status)
      modifies this
      ensures name == old(name)
      ensures (res, State()) == FreeupArenaStep(old(State()), aid)
      ensures Consistent(old(State())) ==> Consistent(State())
    {
      ghost var w := State();
      if Consistent(w) {
        FreeupArenaKeepsConsistent(w, aid);
      }
      var ap := ArenaPathOf(days.vec, aid);
      if ap.None? {
        return Err(InvalidInput);
      }
      var arena := ArenaAt(days.vec, ap.value);
      if arena.group.None? {
        return Ok;
      }
      var gp := GroupPathOf(bewerbs.vec, arena.group.value);
      if gp.Some? {
        bewerbs := UidContainer(WithGroup(bewerbs.vec, gp.value, SetArena(GroupAt(bewerbs.vec, gp.value), None)));
      }
      days := UidContainer(WithArena(days.vec, ap.value, SetGroup(arena, None)));
      return Ok;
    }

    /**
     * `add_group_to_arena`, in place; equal to `AddGroupToArenaStep`: it
     * succeeds exactly when both ids resolve, and then the slot and the
     * group record each other and the tournament stays consistent.
     */
    method AddGroupToArena(gid: GroupId, aid: ArenaSlotId) returns (res: Status)
      modifies this
      ensures name == old(name)
      ensures (res, State()) == AddGroupToArenaStep(old(State()), gid, aid)
      ensures res == Ok <==> ArenaPathOf(old(days.vec), aid).Some? && GroupPathOf(old(bewerbs.vec), gid).Some?
      ensures Consistent(old(State())) ==> Consistent(State())
    {
      ghost var w := State();
      AddGroupToArenaSummary(w, gid, aid);
      res := FreeupArena(aid);
      if res.Err? {
        return;
      }
      res := FreeupGroup(gid);
      if res.Err? {
        return;
      }
      ghost var w2 := State();
      assert AddGroupToArenaStep(w, gid, aid) == AfterFrees(w2, gid, aid);
      res := BindAfterFrees(gid, aid);
    }

    /** The tail of `add_group_to_arena`: look both ids up again and make each side record the other. */
    method BindAfterFrees(gid: GroupId, aid: ArenaSlotId) returns (res: Status)
      modifies this
      ensures name == old(name)
      ensures (res, State()) == AfterFrees(old(State()), gid, aid)
    {
      var ap := ArenaPathOf(days.vec, aid);
      if ap.None? {
        return Err(InvalidInput);
      }
      var gp := GroupPathOf(bewerbs.vec, gid);
      if gp.None? {
        return Err(InvalidInput);
      }
      days := UidContainer(WithArena(days.vec, ap.value, SetGroup(ArenaAt(days.vec, ap.value), Some(gid))));
      bewerbs := UidContainer(WithGroup(bewerbs.vec, gp.value, SetArena(GroupAt(bewerbs.vec, gp.value), Some(aid))));
      res := Ok;
    }

    /** `get_day_data`: the client view of the first day with this id, or an error when no day has it. */
    function GetDayData(id: nat): (r: Result<DayData>)
      reads this
      ensures r.Failure? <==> id !in Ids(days.vec, DayHasId)
      ensures r.Failure? ==> r.error == InvalidInput
      ensures r.Success? ==> exists k :: 0 <= k < |days.vec| && days.vec[k].id == id &&
                                         (forall j :: 0 <= j < k ==> days.vec[j].id != id) &&
                                         r.value == ToDayData(days.vec[k])
    {
      var ids := Ids(days.vec, DayHasId);
      assert forall k :: 0 <= k < |days.vec| ==> ids[k] == days.vec[k].id;
      match Find(days.vec, id, DayHasId)
      case None => Failure(InvalidInput)
      case Some(k) => Success(ToDayData(days.vec[k]))
    }
  }
}
