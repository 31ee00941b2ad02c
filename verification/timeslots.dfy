/**
 * A timeslot (timeslot.rs): the arena slots of one time window of a day.
 * Arenas are kept in a plain sequence, not an id container, and are found
 * by comparing their whole id.
 */
module Timeslots {
  import opened Common
  import opened Identifiers
  import opened Container
  import opened Bewerbs
  import opened ArenaSlots

  datatype Timeslot = Timeslot(id: TimeslotId, arenas: seq<ArenaSlot>)

  /** The `n` free arenas numbered 0..n-1 that `Timeslot::new` creates for day `d`, timeslot `t`. */
  function FreshArenas(d: nat, t: nat, n: nat): seq<ArenaSlot>
  {
    seq(n, a requires 0 <= a < n => NewArenaSlot(ArenaSlotId(d, t, a)))
  }

  /** `Timeslot::new`: arenas 0..nKp-1, each stamped with the timeslot's day and timeslot ids. */
  method NewTimeslot(id: TimeslotId, nKp: nat) returns (t: Timeslot)
    ensures t.id == id
    ensures |t.arenas| == nKp
    ensures forall a :: 0 <= a < nKp ==>
              t.arenas[a].id == ArenaSlotId(id.dayId, id.timeslotId, a) && t.arenas[a].group.None?
  {
    t := Timeslot(id, []);
    var i := 0;
    while i < nKp
      invariant 0 <= i <= nKp
      invariant t == Timeslot(id, FreshArenas(id.dayId, id.timeslotId, i))
    {
      var arena := NewArenaSlot(ArenaSlotId(t.id.dayId, t.id.timeslotId, i));
      t := t.(arenas := t.arenas + [arena]);
      i := i + 1;
    }
  }

  /** The full ids of the arenas, in order. */
  function ArenaIds(arenas: seq<ArenaSlot>): seq<ArenaSlotId>
  {
    seq(|arenas|, k requires 0 <= k < |arenas| => arenas[k].id)
  }

  /** `get_arena`: the position of the first arena whose whole id equals `aid`. */
  function GetArena(t: Timeslot, aid: ArenaSlotId): (i: Option<nat>)
    ensures i.Some? ==> i.value < |t.arenas| && t.arenas[i.value].id == aid
    ensures i.Some? ==> forall k :: 0 <= k < i.value ==> t.arenas[k].id != aid
    ensures i.None? <==> forall k :: 0 <= k < |t.arenas| ==> t.arenas[k].id != aid
  {
    var ids := ArenaIds(t.arenas);
    assert forall k :: 0 <= k < |t.arenas| ==> ids[k] == t.arenas[k].id;
    FindIndex(ids, aid)
  }

  /**
   * In a timeslot whose arenas are still those `new` made for (d, t'), an
   * arena id resolves exactly when it carries that day and timeslot and an
   * arena number below the arena count, whatever the timeslot's own id is.
   */
  lemma FreshArenaLookup(t: Timeslot, d: nat, t': nat, n: nat, aid: ArenaSlotId)
    requires t.arenas == FreshArenas(d, t', n)
    ensures GetArena(t, aid).Some? <==> aid.dayId == d && aid.timeslotId == t' && aid.arenaSlotId < n
    ensures GetArena(t, aid).Some? ==> GetArena(t, aid).value == aid.arenaSlotId
  {
    if aid.dayId == d && aid.timeslotId == t' && aid.arenaSlotId < n {
      assert t.arenas[aid.arenaSlotId].id == aid;
    }
  }

  /** `HasId::get_id`: the timeslot number. */
  function GetId(t: Timeslot): nat
  {
    t.id.timeslotId
  }

  /** `HasId::set_id`: only the timeslot's own number changes; its arenas keep their ids. */
  function WithId(t: Timeslot, id: nat): (r: Timeslot)
    ensures GetId(r) == id && r.id.dayId == t.id.dayId
    ensures r.arenas == t.arenas
  {
    t.(id := t.id.(timeslotId := id))
  }

  const TimeslotHasId: HasId<Timeslot> := HasId(GetId, WithId)

  lemma TimeslotHasIdLawful()
    ensures TimeslotHasId.Lawful()
  {
  }

  /** `set_day_id` (used by `Day`'s `set_id`): only the day id of the timeslot changes. */
  function WithDayId(t: Timeslot, d: nat): (r: Timeslot)
    ensures r.id.dayId == d && r.id.timeslotId == t.id.timeslotId
    ensures r.arenas == t.arenas
  {
    t.(id := t.id.(dayId := d))
  }

  // ---------------------------------------------------------------------
  // Saved form, reconstruction and client view (timeslot.rs:20-54, 80-86)
  // ---------------------------------------------------------------------

  datatype TimeslotSaveable = TimeslotSaveable(id: TimeslotId, arenas: seq<ArenaSlotSaveable>)

  /** `From<&Timeslot> for TimeslotSaveable`. */
  function ToSaveable(t: Timeslot): TimeslotSaveable
  {
    TimeslotSaveable(t.id, seq(|t.arenas|, k requires 0 <= k < |t.arenas| => ArenaSlots.ToSaveable(t.arenas[k])))
  }

  /**
   * The arenas rebuilt from saved ones, left to right, each one possibly
   * binding a group in the events it passes on to the next.
   */
  function LoadArenas(ss: seq<ArenaSlotSaveable>, bs: seq<Bewerb>): (r: (seq<ArenaSlot>, seq<Bewerb>))
    ensures |r.0| == |ss|
    ensures forall k :: 0 <= k < |ss| ==> r.0[k].id == ss[k].id
    ensures SameShape(bs, r.1)
  {
    if ss == [] then ([], bs)
    else
      var prev := LoadArenas(ss[..|ss| - 1], bs);
      var slot := ArenaSlots.FromSaveable(ss[|ss| - 1], prev.1);
      SameShapeTrans(bs, prev.1, slot.1);
      (prev.0 + [slot.0], slot.1)
  }

  /** `from_timeslot_saveable`: the saved id, and each saved arena rebuilt in order. */
  method FromSaveable(ts: TimeslotSaveable, bs: seq<Bewerb>) returns (t: Timeslot, bs': seq<Bewerb>)
    ensures t.id == ts.id
    ensures (t.arenas, bs') == LoadArenas(ts.arenas, bs)
  {
    var arenas: seq<ArenaSlot> := [];
    bs' := bs;
    var i := 0;
    while i < |ts.arenas|
      invariant 0 <= i <= |ts.arenas|
      invariant (arenas, bs') == LoadArenas(ts.arenas[..i], bs)
    {
      assert ts.arenas[..i + 1][..i] == ts.arenas[..i];
      var slot := ArenaSlots.FromSaveable(ts.arenas[i], bs');
      arenas := arenas + [slot.0];
      bs' := slot.1;
      i := i + 1;
    }
    assert ts.arenas[..|ts.arenas|] == ts.arenas;
    t := Timeslot(ts.id, arenas);
  }

  /** Saved arenas without a group load as free arenas and leave the events untouched. */
  lemma {:induction false} LoadFreeArenas(ss: seq<ArenaSlotSaveable>, bs: seq<Bewerb>)
    requires forall k :: 0 <= k < |ss| ==> ss[k].group.None?
    ensures LoadArenas(ss, bs).1 == bs
    ensures forall k :: 0 <= k < |ss| ==> LoadArenas(ss, bs).0[k] == ArenaSlot(ss[k].id, None)
  {
    if ss != [] {
      LoadFreeArenas(ss[..|ss| - 1], bs);
    }
  }

  /** A timeslot none of whose arenas is bound comes back unchanged from a save and load. */
  lemma SaveLoadFreeTimeslot(t: Timeslot, bs: seq<Bewerb>)
    requires forall k :: 0 <= k < |t.arenas| ==> t.arenas[k].group.None?
    ensures LoadArenas(ToSaveable(t).arenas, bs) == (t.arenas, bs)
  {
    var ss := ToSaveable(t).arenas;
    LoadFreeArenas(ss, bs);
    var loaded := LoadArenas(ss, bs).0;
    assert forall k :: 0 <= k < |t.arenas| ==> loaded[k] == t.arenas[k];
    assert loaded == t.arenas;
  }

  /** The client view (`tournament::TimeslotData`). */
  datatype TimeslotData = TimeslotData(arenas: seq<ArenaData>)

  /** `From<&Timeslot> for TimeslotData`. */
  function ToTimeslotData(t: Timeslot): TimeslotData
  {
    TimeslotData(seq(|t.arenas|, k requires 0 <= k < |t.arenas| => ToArenaData(t.arenas[k])))
  }

  /** The saved form and the client view both list the timeslot's arenas in its own order. */
  lemma ViewsKeepArenaOrder(t: Timeslot)
    ensures |ToSaveable(t).arenas| == |ToTimeslotData(t).arenas| == |t.arenas|
    ensures forall k :: 0 <= k < |t.arenas| ==>
              && ToSaveable(t).arenas[k].id == t.arenas[k].id
              && ToTimeslotData(t).arenas[k].id == Some(ToIdentifier(t.arenas[k].id))
              && ToTimeslotData(t).arenas[k].group == ToSaveable(t).arenas[k].group == t.arenas[k].group
  {
  }
}
