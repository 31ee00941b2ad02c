/**
 * A day of the tournament (day.rs): its date, the numbers of timeslots and
 * arenas it was created with, and its timeslots in an id container.  Also
 * the lookup of an arena slot through the days container
 * (tournament_core.rs:93-99).
 */
module Days {
  import opened Common
  import opened Identifiers
  import opened Container
  import opened ArenaSlots
  import opened Timeslots

  /**
   * A calendar date, as a day number counted from 1970-01-01.  The source
   * keeps a `NaiveDate`; only the conversion to and from whole seconds is
   * modelled.
   */
  datatype Date = Date(dayNumber: int)

  const SecondsPerDay: int := 86400

  /** The date of a timestamp (the day containing that second, also before 1970). */
  function FromTimestamp(seconds: int): (d: Date)
    ensures d.dayNumber * SecondsPerDay <= seconds < (d.dayNumber + 1) * SecondsPerDay
  {
    Date(seconds / SecondsPerDay)
  }

  /** The timestamp of midnight at the start of a date. */
  function ToTimestamp(d: Date): int
  {
    d.dayNumber * SecondsPerDay
  }

  /** A date survives the trip through a timestamp; a timestamp is rounded down to its midnight. */
  lemma TimestampRoundTrip(d: Date, seconds: int)
    ensures FromTimestamp(ToTimestamp(d)) == d
    ensures ToTimestamp(FromTimestamp(seconds)) <= seconds < ToTimestamp(FromTimestamp(seconds)) + SecondsPerDay
  {
  }

  datatype Day = Day(id: nat, date: Date, nTs: nat, nKp: nat, timeslots: UidContainer<Timeslot>)

  /**
   * The timeslots `Day::new` builds, seen after the day got the id `d`:
   * timeslot k has the id (d, k), but its arenas keep the ids (0, 0, a)
   * they were created with, because neither the timeslot's nor the day's
   * `set_id` reaches the arenas.
   */
  predicate FreshTimeslots(tss: seq<Timeslot>, d: nat, nKp: nat)
  {
    forall k :: 0 <= k < |tss| ==> tss[k] == Timeslot(TimeslotId(d, k), FreshArenas(0, 0, nKp))
  }

  /**
   * `Day::new`: day id 0 and `nTs` timeslots pushed into an empty container,
   * each created for the timeslot id (day id, 0) with `nKp` arenas.
   */
  method NewDay(date: Date, nTs: nat, nKp: nat) returns (d: Day)
    ensures d.id == 0 && d.date == date && d.nTs == nTs && d.nKp == nKp
    ensures |d.timeslots.vec| == nTs
    ensures FreshTimeslots(d.timeslots.vec, 0, nKp)
  {
    d := Day(0, date, nTs, nKp, UidContainer([]));
    TimeslotHasIdLawful();
    var i := 0;
    while i < nTs
      invariant 0 <= i <= nTs
      invariant d.id == 0 && d.date == date && d.nTs == nTs && d.nKp == nKp
      invariant |d.timeslots.vec| == i
      invariant FreshTimeslots(d.timeslots.vec, 0, nKp)
    {
      var ts := NewTimeslot(TimeslotId(d.id, 0), nKp);
      assert ts.arenas == FreshArenas(0, 0, nKp);
      assert forall k :: 0 <= k < i ==> Ids(d.timeslots.vec, TimeslotHasId)[k] == k;
      NewIdAfterRange(Ids(d.timeslots.vec, TimeslotHasId));
      var timeslots := Push(d.timeslots, ts, TimeslotHasId);
      d := d.(timeslots := timeslots);
      i := i + 1;
    }
  }

  /**
   * `Day::get_arena`: the first timeslot with the arena id's timeslot
   * number, then that timeslot's `get_arena`.  Result: (timeslot position,
   * arena position).
   */
  function GetArena(d: Day, aid: ArenaSlotId): (p: Option<(nat, nat)>)
    ensures p.Some? ==> p.value.0 < |d.timeslots.vec| && Timeslots.GetId(d.timeslots.vec[p.value.0]) == aid.timeslotId
    ensures p.Some? ==> Timeslots.GetArena(d.timeslots.vec[p.value.0], aid) == Some(p.value.1)
    ensures (forall k :: 0 <= k < |d.timeslots.vec| ==> Timeslots.GetId(d.timeslots.vec[k]) != aid.timeslotId) ==> p.None?
  {
    match Find(d.timeslots.vec, aid.timeslotId, TimeslotHasId)
    case None => None
    case Some(ti) =>
      match Timeslots.GetArena(d.timeslots.vec[ti], aid)
      case None => None
      case Some(ai) => Some((ti, ai))
  }

  /**
   * The day's lookup is the first timeslot carrying the arena's timeslot
   * number, asked for the arena: it answers exactly when that timeslot
   * does, with that timeslot's answer, and no later timeslot is asked.
   */
  lemma GetArenaFirstTimeslot(d: Day, aid: ArenaSlotId, i: nat)
    requires i < |d.timeslots.vec| && Timeslots.GetId(d.timeslots.vec[i]) == aid.timeslotId
    requires forall j :: 0 <= j < i ==> Timeslots.GetId(d.timeslots.vec[j]) != aid.timeslotId
    ensures GetArena(d, aid).Some? <==> Timeslots.GetArena(d.timeslots.vec[i], aid).Some?
    ensures GetArena(d, aid).Some? ==> GetArena(d, aid).value == (i, Timeslots.GetArena(d.timeslots.vec[i], aid).value)
  {
    FindIsFirst(d.timeslots.vec, aid.timeslotId, TimeslotHasId, i);
  }

  /**
   * In a day built by `new`, an arena id resolves exactly when it names day
   * 0, timeslot 0 and an existing arena: the arenas of every other
   * timeslot still carry timeslot number 0, so their timeslot is never the
   * one looked in.
   */
  lemma FreshDayArenaLookup(d: Day, x: nat, aid: ArenaSlotId)
    requires FreshTimeslots(d.timeslots.vec, x, d.nKp)
    ensures GetArena(d, aid).Some? <==>
              aid.dayId == 0 && aid.timeslotId == 0 && 0 < |d.timeslots.vec| && aid.arenaSlotId < d.nKp
    ensures GetArena(d, aid).Some? ==> GetArena(d, aid).value == (0, aid.arenaSlotId)
  {
    var tss := d.timeslots.vec;
    var ti := Find(tss, aid.timeslotId, TimeslotHasId);
    if ti.Some? {
      assert tss[ti.value].id.timeslotId == ti.value;
      FreshArenaLookup(tss[ti.value], 0, 0, d.nKp, aid);
    }
  }

  /** `HasId::get_id`: the day id. */
  function GetId(d: Day): nat
  {
    d.id
  }

  /** `HasId::set_id`: the day id, and each timeslot's day id (not the arenas'). */
  function WithId(d: Day, id: nat): (r: Day)
    ensures GetId(r) == id && r.date == d.date && r.nTs == d.nTs && r.nKp == d.nKp
    ensures |r.timeslots.vec| == |d.timeslots.vec|
    ensures forall k :: 0 <= k < |d.timeslots.vec| ==> r.timeslots.vec[k] == WithDayId(d.timeslots.vec[k], id)
  {
    var tss := d.timeslots.vec;
    d.(id := id, timeslots := UidContainer(seq(|tss|, k requires 0 <= k < |tss| => WithDayId(tss[k], id))))
  }

  /** The loop of `set_id`, equal to `WithId`. */
  method SetId(d: Day, id: nat) returns (r: Day)
    ensures r == WithId(d, id)
  {
    var tss := d.timeslots.vec;
    var i := 0;
    while i < |tss|
      invariant 0 <= i <= |tss| && |tss| == |d.timeslots.vec|
      invariant forall k :: 0 <= k < i ==> tss[k] == WithDayId(d.timeslots.vec[k], id)
      invariant forall k :: i <= k < |tss| ==> tss[k] == d.timeslots.vec[k]
    {
      tss := tss[i := WithDayId(tss[i], id)];
      i := i + 1;
    }
    r := d.(id := id, timeslots := UidContainer(tss));
  }

  const DayHasId: HasId<Day> := HasId(GetId, WithId)

  lemma DayHasIdLawful()
    ensures DayHasId.Lawful()
  {
  }

  /** Renumbering a fresh day renumbers its timeslots' day ids and leaves the arenas as they were. */
  lemma WithIdKeepsFresh(d: Day, x: nat, id: nat)
    requires FreshTimeslots(d.timeslots.vec, x, d.nKp)
    ensures FreshTimeslots(WithId(d, id).timeslots.vec, id, WithId(d, id).nKp)
  {
  }

  // ---------------------------------------------------------------------
  // Client views (day.rs:43-49, 64-88)
  // ---------------------------------------------------------------------

  datatype DayData = DayData(timeslots: seq<TimeslotData>)

  /** `From<&Day> for DayData`: one entry per timeslot, in container order. */
  function ToDayData(d: Day): DayData
  {
    var tss := d.timeslots.vec;
    DayData(seq(|tss|, k requires 0 <= k < |tss| => ToTimeslotData(tss[k])))
  }

  /**
   * The view of a day fresh from `new` (whatever id it got since): one
   * entry per timeslot, each listing the day's arenas as free, numbered
   * 0..nKp-1 with the ids they were created with.
   */
  lemma FreshDayData(d: Day, x: nat)
    requires FreshTimeslots(d.timeslots.vec, x, d.nKp)
    ensures |ToDayData(d).timeslots| == |d.timeslots.vec|
    ensures forall k :: 0 <= k < |d.timeslots.vec| ==>
              && |ToDayData(d).timeslots[k].arenas| == d.nKp
              && forall a :: 0 <= a < d.nKp ==>
                   ToDayData(d).timeslots[k].arenas[a] == ArenaData(Some(ArenaIdentifier(0, 0, a)), None)
  {
  }

  /** The view of a day offered to clients (`tournament::SimpleDay`); the date as a timestamp in seconds. */
  datatype SimpleDay = SimpleDay(id: nat, date: Option<int>, numberTimeSlots: nat, numberArenas: nat)

  /** `From<&Day> for SimpleDay`. */
  function ToSimpleDay(d: Day): (s: SimpleDay)
    ensures s.id == d.id && s.numberTimeSlots == d.nTs && s.numberArenas == d.nKp
    ensures s.date.Some? && FromTimestamp(s.date.value) == d.date
  {
    TimestampRoundTrip(d.date, 0);
    SimpleDay(d.id, Some(ToTimestamp(d.date)), d.nTs, d.nKp)
  }

  /**
   * `From<SimpleDay> for Day`: a new day with the given numbers of timeslots
   * and arenas on the date of the timestamp (1970-01-01 when there is none).
   * The id is not taken over.
   */
  method FromSimpleDay(s: SimpleDay) returns (d: Day)
    ensures d.id == 0 && d.nTs == s.numberTimeSlots && d.nKp == s.numberArenas
    ensures d.date == FromTimestamp(if s.date.Some? then s.date.value else 0)
    ensures |d.timeslots.vec| == s.numberTimeSlots
    ensures FreshTimeslots(d.timeslots.vec, 0, d.nKp)
    ensures ToSimpleDay(d).date == Some(ToTimestamp(d.date))
    ensures ToSimpleDay(d).date.value <= (if s.date.Some? then s.date.value else 0) < ToSimpleDay(d).date.value + SecondsPerDay
  {
    var seconds := if s.date.Some? then s.date.value else 0;
    TimestampRoundTrip(Date(0), seconds);
    d := NewDay(FromTimestamp(seconds), s.numberTimeSlots, s.numberArenas);
  }

  // ---------------------------------------------------------------------
  // Positions of arena slots inside the days container
  // ---------------------------------------------------------------------

  /** Where an arena slot lives: day position, timeslot position, arena position. */
  datatype ArenaPath = ArenaPath(d: nat, t: nat, a: nat)

  predicate IsArenaPath(ds: seq<Day>, p: ArenaPath)
  {
    p.d < |ds| && p.t < |ds[p.d].timeslots.vec| && p.a < |ds[p.d].timeslots.vec[p.t].arenas|
  }

  function ArenaAt(ds: seq<Day>, p: ArenaPath): ArenaSlot
    requires IsArenaPath(ds, p)
  {
    ds[p.d].timeslots.vec[p.t].arenas[p.a]
  }

  /** Replace the arena slot at `p` (the write through `get_mut`). */
  function WithArena(ds: seq<Day>, p: ArenaPath, s: ArenaSlot): seq<Day>
    requires IsArenaPath(ds, p)
  {
    var d := ds[p.d];
    var t := d.timeslots.vec[p.t];
    var t' := t.(arenas := t.arenas[p.a := s]);
    ds[p.d := d.(timeslots := UidContainer(d.timeslots.vec[p.t := t']))]
  }

  /**
   * `get_arena_by_id_internal` (tournament_core.rs:93-99): the first day
   * with the arena id's day id, then `Day::get_arena`.
   */
  function ArenaPathOf(ds: seq<Day>, aid: ArenaSlotId): (p: Option<ArenaPath>)
    ensures p.Some? ==> IsArenaPath(ds, p.value) && ArenaAt(ds, p.value).id == aid
    ensures p.Some? ==> GetId(ds[p.value.d]) == aid.dayId
    ensures p.Some? ==> forall j :: 0 <= j < p.value.d ==> GetId(ds[j]) != aid.dayId
    ensures p.Some? ==> GetArena(ds[p.value.d], aid) == Some((p.value.t, p.value.a))
    ensures var first := Find(ds, aid.dayId, DayHasId);
            first.Some? ==> (p.Some? <==> GetArena(ds[first.value], aid).Some?)
    ensures (forall j :: 0 <= j < |ds| ==> GetId(ds[j]) != aid.dayId) ==> p.None?
  {
    match Find(ds, aid.dayId, DayHasId)
    case None => None
    case Some(di) =>
      match GetArena(ds[di], aid)
      case None => None
      case Some(ta) => Some(ArenaPath(di, ta.0, ta.1))
  }

  /** The lookup answers for the first day carrying the arena's day id, and for no later one. */
  lemma ArenaPathOfFirstDay(ds: seq<Day>, aid: ArenaSlotId, i: nat)
    requires i < |ds| && GetId(ds[i]) == aid.dayId
    requires forall j :: 0 <= j < i ==> GetId(ds[j]) != aid.dayId
    ensures ArenaPathOf(ds, aid).Some? <==> GetArena(ds[i], aid).Some?
    ensures ArenaPathOf(ds, aid).Some? ==> ArenaPathOf(ds, aid).value.d == i
  {
    FindIsFirst(ds, aid.dayId, DayHasId, i);
  }

  /** Appending a day does not change where an id that already resolves is found. */
  lemma ArenaPathOfAppend(ds: seq<Day>, d: Day, aid: ArenaSlotId)
    requires ArenaPathOf(ds, aid).Some?
    ensures ArenaPathOf(ds + [d], aid) == ArenaPathOf(ds, aid)
  {
    FindAppend(ds, d, aid.dayId, DayHasId);
    var i := Find(ds, aid.dayId, DayHasId).value;
    assert (ds + [d])[i] == ds[i];
  }

  /** The shape of the days tree: all day, timeslot and arena ids, position by position. */
  predicate SameShape(ds: seq<Day>, ds': seq<Day>)
  {
    && |ds| == |ds'|
    && forall i :: 0 <= i < |ds| ==>
         && ds[i].id == ds'[i].id
         && |ds[i].timeslots.vec| == |ds'[i].timeslots.vec|
         && forall j :: 0 <= j < |ds[i].timeslots.vec| ==>
              && ds[i].timeslots.vec[j].id == ds'[i].timeslots.vec[j].id
              && ArenaIds(ds[i].timeslots.vec[j].arenas) == ArenaIds(ds'[i].timeslots.vec[j].arenas)
  }

  /** Having the same shape is transitive. */
  lemma SameShapeTrans(ds: seq<Day>, ds': seq<Day>, ds'': seq<Day>)
    requires SameShape(ds, ds') && SameShape(ds', ds'')
    ensures SameShape(ds, ds'')
  {
  }

  /** Days of the same shape have the same arena positions. */
  lemma SameShapeSamePaths(ds: seq<Day>, ds': seq<Day>)
    requires SameShape(ds, ds')
    ensures forall p :: IsArenaPath(ds, p) <==> IsArenaPath(ds', p)
  {
    forall p ensures IsArenaPath(ds, p) <==> IsArenaPath(ds', p) {
      if p.d < |ds| && p.t < |ds[p.d].timeslots.vec| {
        assert |ArenaIds(ds[p.d].timeslots.vec[p.t].arenas)| == |ArenaIds(ds'[p.d].timeslots.vec[p.t].arenas)|;
      }
    }
  }

  /** Within one day of two day lists of the same shape, an arena id resolves alike. */
  lemma SameShapeSameDayLookup(ds: seq<Day>, ds': seq<Day>, i: nat, aid: ArenaSlotId)
    requires SameShape(ds, ds') && i < |ds|
    ensures GetArena(ds[i], aid) == GetArena(ds'[i], aid)
  {
    var tss, tss' := ds[i].timeslots.vec, ds'[i].timeslots.vec;
    FindSameIds(tss, tss', aid.timeslotId, TimeslotHasId);
    var ti := Find(tss, aid.timeslotId, TimeslotHasId);
    if ti.Some? {
      var t, t' := tss[ti.value], tss'[ti.value];
      assert ArenaIds(t.arenas) == ArenaIds(t'.arenas);
    }
  }

  /** Lookups only look at ids, so days of the same shape resolve every arena id alike. */
  lemma SameShapeSameLookup(ds: seq<Day>, ds': seq<Day>, aid: ArenaSlotId)
    requires SameShape(ds, ds')
    ensures ArenaPathOf(ds, aid) == ArenaPathOf(ds', aid)
  {
    FindSameIds(ds, ds', aid.dayId, DayHasId);
    var di := Find(ds, aid.dayId, DayHasId);
    if di.Some? {
      SameShapeSameDayLookup(ds, ds', di.value, aid);
    }
  }

  /** Writing an arena slot with the same id back keeps the shape, and changes that slot only. */
  lemma WithArenaFrame(ds: seq<Day>, p: ArenaPath, s: ArenaSlot)
    requires IsArenaPath(ds, p) && s.id == ArenaAt(ds, p).id
    ensures SameShape(ds, WithArena(ds, p, s))
    ensures forall q :: IsArenaPath(ds, q) ==>
              ArenaAt(WithArena(ds, p, s), q) == if q == p then s else ArenaAt(ds, q)
  {
    var ds' := WithArena(ds, p, s);
    var t := ds[p.d].timeslots.vec[p.t];
    var t' := ds'[p.d].timeslots.vec[p.t];
    assert ArenaIds(t'.arenas) == ArenaIds(t.arenas);
  }

  /** Writing an arena slot with the same id back changes no lookup. */
  lemma WithArenaKeepsLookups(ds: seq<Day>, p: ArenaPath, s: ArenaSlot)
    requires IsArenaPath(ds, p) && s.id == ArenaAt(ds, p).id
    ensures forall aid :: ArenaPathOf(WithArena(ds, p, s), aid) == ArenaPathOf(ds, aid)
    ensures forall q :: IsArenaPath(WithArena(ds, p, s), q) <==> IsArenaPath(ds, q)
  {
    WithArenaFrame(ds, p, s);
    forall aid ensures ArenaPathOf(WithArena(ds, p, s), aid) == ArenaPathOf(ds, aid) {
      SameShapeSameLookup(ds, WithArena(ds, p, s), aid);
    }
    SameShapeSamePaths(ds, WithArena(ds, p, s));
  }
}
