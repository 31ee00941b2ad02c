# Tournament core in Dafny

A model of the in-memory core of a fencing tournament manager, with proofs about it. The core holds two trees whose nodes are addressed by numeric ids:

- the schedule: days, each with timeslots, each with arena slots;
- the competition: events (`Bewerb`), each with rounds, each with groups.

A `Tournament` owns both trees. It binds a group and an arena slot to each other by id, frees either side, and frees every group of an event before it removes the event. A separate flat registry holds the fencers. The tournament keeps its days and events, a day its timeslots, an event its rounds and a round its groups in an id container that gives a new element the smallest id not in use. A timeslot keeps its arena slots in a plain list and numbers them by their position when it builds them (timeslot.rs:17, 61-69).

## Modules

| file | module | models |
|---|---|---|
| common.dfy | `Common` | `Option`, the `InvalidInput` error, `Result<(), Error>` as `Status`, `Result<T, Error>` |
| container.dfy | `Container` | `UidContainer` and the `HasId` trait (container.rs) |
| identifiers.dfy | `Identifiers` | the composite ids of both trees |
| groups.dfy, rounds.dfy, bewerbs.dfy | `Groups`, `Rounds`, `Bewerbs` | the competition tree (group.rs, round.rs, bewerb.rs) |
| arena_slots.dfy, timeslots.dfy, days.dfy | `ArenaSlots`, `Timeslots`, `Days` | the schedule tree (arena_slot.rs, timeslot.rs, day.rs) |
| assignment.dfy | `Assignment` | the binding operations of tournament_core.rs as functions from one pair of trees to the next, and their proofs |
| tournament.dfy | `TournamentCore` | the `Tournament` class; each method updates its fields in place and is proved equal to its function in `Assignment` |
| fencers.dfy | `FencerRegistry` | the `Fencer` and `Fencers` classes (fencer.rs) |

## How the model is built

- **Values and classes.** Entities that their owner holds by value become datatypes and are updated by copy: groups, rounds, events, arena slots, timeslots and days. The tournament, a fencer and the fencer list are classes whose methods assign their fields.
- **Mutable lookups.** A `get_mut` lookup becomes a path of positions: `GroupPath(event, round, group)` or `ArenaPath(day, timeslot, arena)`. A write through that lookup becomes a functional update at the path.
- **Cross-links are ids.** A group stores the id of its arena slot, and an arena slot stores the id of its group. Each side is found again by lookup.
- **`Consistent`.** Every binding is two-sided: the slot a group records resolves, and it records a group that resolves back to the same group. The same holds in the other direction.
- **What is proved about consistency:**
  - `freeup_group`, `freeup_arena` and `add_group_to_arena` keep the graph consistent;
  - adding an unbound day or a fresh event keeps it consistent;
  - so does the freeing loop of `remove_bewerb`.

### Surprising behaviour of the code

The model keeps the following behaviours of the code as they are.

- **Stale event ids.** `Bewerb::set_id` changes only the event's own id (bewerb.rs:51-53). Every event is built with id 0 and renumbered when it is pushed. As a result, the rounds and groups of every event after the first keep event id 0 in their ids.
  - A group id listed for such an event resolves into the first event with id 0.
  - So `remove_bewerb` of a later event frees the matching groups of the first event instead of its own (`Assignment.StaleEventIdsMisdirectCascade`).
  - The cascade property is proved under the condition that the removed event's groups resolve to themselves (`Assignment.SelfResolving`).
- **Stale timeslot and day ids in arena slots.** `Timeslot::set_id` and the day's `set_id` never reach the arena slots. A fresh day's arenas keep the id (0, 0, a) they were built with.
  - `Timeslot::get_arena` compares the whole id.
  - So in a day built by `Day::new`, only arena ids naming day 0 and timeslot 0 resolve (`Days.FreshDayArenaLookup`).
- **`remove_day` frees nothing.** A group bound to an arena slot of the removed day keeps recording that slot, so the binding becomes one-sided (`Assignment.RemoveDayLeavesStaleGroups`).
- **Swapped argument names in `add_bewerb`.** `add_bewerb(name, n_groups, n_rounds)` passes its arguments in order to `Bewerb::new(name, n_rounds, n_groups)`. Its second argument is therefore the number of rounds (`TournamentCore.Tournament.AddBewerb`).

### Pieces the code uses but does not define

- **`UidContainer` lookups.** `get` and `get_mut` find the first element carrying the id. `insert` appends without assigning a new id.
- **`Bewerb::get_group_by_id`.** It finds the first round with the group's round id, then uses that round's `get_group_by_id`.
- **The group's arena field.** `Group` gets an `Option<ArenaSlotId>` field, read and written by `get_arena` and `set_arena`.
- **`Day::new`.** It passes the timeslot id (day id, 0).
- **`set_day_id`.** It sets the timeslot's day id.
- **`GroupSaveable`.** It keeps the group id and the fencer ids. A loaded group has no arena, and its binding is restored from the arena slot's side.
- **`Group::add_to_arenaslot`.** It binds both sides.
- **Event id conversions.** A fencer's view turns each stored `BewerbId` into the client's event id with `.into()` (fencer.rs:72), and `update` turns the client's event ids back with `.into()` (fencer.rs:92). Neither conversion is defined in the code; both are taken as the identity, so a fencer's view and `update` carry the same `BewerbId` values (`FencerRegistry.Fencer.Simple`, `FencerRegistry.Fencer.Update`).

### Dates

A date is modelled as a day number counted from 1970-01-01. A timestamp converts to the day that contains it, rounding down, also before 1970.

## Model

| member | source | states |
|---|---|---|
| Container.NewIdFrom | src/container.rs:15-22 | the search that starts at k, once 0..k-1 are known to be taken, ends at the smallest unused id, which is at most the element count (the termination bound) |
| Container.NewId | src/container.rs:15-22 | the id handed out is the smallest non-negative integer no element carries, and it is at most the element count |
| Container.RangeCovered | src/container.rs:18-20 | pigeonhole: if 0..k-1 all occur among the ids, there are at least k ids, so the counting loop stops |
| Container.GetNewId | src/container.rs:15-22 | the counting loop returns the smallest unused id, equal to `NewId` |
| Container.Push | src/container.rs:24-28 | the item, stamped with the new id, is appended; earlier elements and their order are unchanged; the id list grows by exactly that id |
| Container.PushKeepsDistinct | src/container.rs:15-28 | pairwise distinct ids stay pairwise distinct after a push |
| Container.NewIdAfterRange | src/container.rs:15-28 | in a container whose ids are 0..n-1 in order, the next id is n |
| Container.IterationIsInsertionOrder | src/container.rs:36-38 | iteration follows insertion, not id order: whenever an element carries an id above the one the next push hands out, the ids after the push are out of increasing order, with the new id last |
| Container.Retained | src/container.rs:30-32 | the kept elements are exactly those of the input whose id differs from the removed one |
| Container.RetainedConcat | src/container.rs:30-32 | removal commutes with concatenation, so the survivors keep their relative order |
| Container.RetainedAbsent | src/container.rs:30-32 | removing an id that no element carries leaves the container unchanged |
| Container.RetainedRemoves | src/container.rs:30-32 | after removal no element carries the removed id |
| Container.RetainedKeepsDistinct | src/container.rs:30-32 | pairwise distinct ids stay distinct after removal |
| Container.RemoveThenPushReuses | src/container.rs:15-32 | after `remove(id)`, the next push hands out `id` again when 0..id-1 are still taken |
| Container.Remove | src/container.rs:30-32 | the `retain` loop keeps, in order, exactly the elements with another id, and the removed id is gone |
| Container.Find | src/tournament_core.rs:84 | `get_mut` finds the first element carrying the id, or reports that none carries it |
| Container.Get | src/tournament_core.rs:68 | `get` returns the first element carrying the id (no earlier element carries it), and returns None exactly when no element carries it |
| Groups.NewGroup | src/group.rs:20-26 | a new group copies the event name, event id and round id, has group id 0, no arena and no fencers |
| Groups.WithBewerbId | src/group.rs:32-34 | `set_bewerb_id` sets the event id; restoring the old event id gives the group back, so nothing else changes |
| Groups.WithRoundId | src/group.rs:36-38 | `set_round_id` sets the round id and changes nothing else |
| Groups.WithId | src/group.rs:41-48 | `set_id` sets the group number, which `get_id` then returns, and changes nothing else |
| Groups.SetArena | src/tournament_core.rs:120 | `set_arena` records the given arena and keeps the group's id and fencers |
| Groups.SaveableRoundTrip | src/round.rs:37-47 | saving then loading a group gives it back with its arena cleared; saving again reproduces the saved form |
| Rounds.NewRound | src/round.rs:49-58 | `Round::new(b, n)` has round id 0 and the event's name and id, and has n free groups with group ids 0..n-1 in order |
| Rounds.FreeIds | src/round.rs:64-70 | the free-group list holds exactly the ids of the groups without an arena |
| Rounds.FreeGroupsWhenNoneAssigned | src/round.rs:60-70 | with no group bound, `get_free_groups` equals `get_all_groups` |
| Rounds.NoFreeGroupsWhenAllAssigned | src/round.rs:64-70 | with every group bound, `get_free_groups` is empty |
| Rounds.SetBewerbId | src/round.rs:72-77 | the loop writes the new event id into the round and into every group, changing nothing else |
| Rounds.WithId | src/round.rs:88-93 | `set_id` writes the round id into the round and every group; group numbers are unchanged |
| Rounds.SetId | src/round.rs:88-93 | the loop of `set_id` yields exactly `WithId` |
| Rounds.GetGroupById | src/round.rs:79-81 | a group is resolved by its group number alone: the first group with that number, and None exactly when no group has it |
| Rounds.AllGroupsResolve | src/round.rs:60-81 | with distinct group numbers, every id that `get_all_groups` lists resolves back to its own group |
| Rounds.FromSaveable | src/round.rs:37-47 | the loop of `from_saveable` inserts the saved groups in order, equal to `Loaded` |
| Rounds.LoadedKeepsIds | src/round.rs:26-47 | loading keeps the saved group ids and their order (no ids are handed out again), and saving the result gives the input back |
| Rounds.SaveLoadClearsArenas | src/round.rs:26-47 | saving then loading a round gives each group back with its arena cleared, so every group is free |
| Bewerbs.NewBewerb | src/bewerb.rs:19-34 | `Bewerb::new(name, r, g)` has id 0, the name, and r rounds with round ids 0..r-1, each holding g free groups numbered 0..g-1 |
| Bewerbs.GroupsOf | src/bewerb.rs:36-44 | every group of every round is listed, and only those |
| Bewerbs.GroupsOfFirst | src/bewerb.rs:36-44 | the first id listed is that of the first group of the first round |
| Bewerbs.GetAllGroups | src/bewerb.rs:36-44 | the loop appends each round's group ids in round order, equal to `GroupsOf` |
| Bewerbs.GroupsOfCount | src/bewerb.rs:36-44 | if every round has n groups, r rounds list r*n group ids |
| Bewerbs.FreshEventGroupCount | src/bewerb.rs:28-44 | a fresh event with r rounds of g groups lists r*g groups |
| Bewerbs.WithId | src/bewerb.rs:47-54 | `set_id` changes only the event's own id, which `get_id` then returns; the rounds and groups keep their stored event id |
| Bewerbs.GetGroupById | src/tournament_core.rs:86 | a successful lookup of an event names a round carrying the group's round id and, in it, a group carrying the group's number |
| Bewerbs.GetGroupByIdFirstRound | src/tournament_core.rs:86 | the event's lookup asks the first round carrying the group's round id: it succeeds exactly when that round's lookup does, and gives that round's position and that round's answer |
| Bewerbs.GetGroupByIdNoRound | src/tournament_core.rs:86 | without a round carrying the group's round id the event's lookup gives None |
| Bewerbs.GroupPathOf | src/tournament_core.rs:80-87 | a group id resolves in the first event carrying its event id, at the position that event's lookup gives; when some event carries the event id, the id resolves exactly when the first such event's lookup succeeds; an event id that no event carries gives None |
| Bewerbs.GroupPathOfFirstEvent | src/tournament_core.rs:80-87 | for the first event `i` carrying the event id, the id resolves exactly when event `i`'s lookup succeeds, and then in event `i` |
| Bewerbs.GroupPathOfAppend | src/tournament_core.rs:80-87 | appending an event does not move a group id that already resolves |
| Bewerbs.WithGroupKeepsLookups | src/tournament_core.rs:80-87 | writing back a group with the same id changes no lookup and no valid position |
| ArenaSlots.IdentifierRoundTrip | src/arena_slot.rs:16-34 | converting a slot id to the client identifier and back, or the other way round, is the identity |
| ArenaSlots.IdentifierInjective | src/arena_slot.rs:16-24 | distinct slot ids have distinct client identifiers |
| ArenaSlots.NewArenaSlot | src/arena_slot.rs:91-96 | a new slot has the given id and no group |
| ArenaSlots.SetGroup | src/arena_slot.rs:102-108 | after `set_group(x)`, `get_group` returns x, and the slot id is kept |
| ArenaSlots.WithId | src/arena_slot.rs:125-133 | `set_id` sets the arena number, which `get_id` then returns; day id, timeslot id and group are kept |
| ArenaSlots.FromSaveable | src/arena_slot.rs:64-89 | the slot keeps its saved id; it is bound exactly when the saved group id resolves, and then both sides record each other and no other group changes; otherwise the events are untouched |
| ArenaSlots.SaveLoadRoundTrip | src/arena_slot.rs:48-89 | saving then loading a slot gives it back when its group resolves to a group with that id, or when it has no group |
| ArenaSlots.ArenaDataAgreesWithSaveable | src/arena_slot.rs:111-123 | the client view and the saved form carry the same slot id and the same group |
| Timeslots.NewTimeslot | src/timeslot.rs:56-73 | `Timeslot::new(id, n)` has n free arenas numbered 0..n-1, each carrying the timeslot's day and timeslot ids |
| Timeslots.GetArena | src/timeslot.rs:75-77 | `get_arena` returns the first arena whose whole id equals the query, and None exactly when no arena has that id |
| Timeslots.FreshArenaLookup | src/timeslot.rs:56-77 | among fresh arenas made for (d, t), an id resolves exactly when it names d, t and an existing arena number |
| Timeslots.WithId | src/timeslot.rs:93-95 | `set_id` changes only the timeslot number; the arenas keep their ids |
| Timeslots.WithDayId | src/day.rs:59 | `set_day_id` changes only the timeslot's day id; the arenas keep their ids |
| Timeslots.LoadArenas | src/timeslot.rs:38-54 | the arenas are rebuilt one per saved arena, in order, with the saved ids, and the events keep their shape |
| Timeslots.FromSaveable | src/timeslot.rs:38-54 | the loop keeps the saved timeslot id and rebuilds the arenas in order, equal to `LoadArenas` |
| Timeslots.LoadFreeArenas | src/timeslot.rs:38-54 | saved arenas without a group load as free arenas and leave the events untouched |
| Timeslots.SaveLoadFreeTimeslot | src/timeslot.rs:26-54 | a timeslot with no bound arena comes back unchanged from saving and loading |
| Timeslots.ViewsKeepArenaOrder | src/timeslot.rs:26-35 | the saved form and the client view list the arenas in the timeslot's order, with the same ids and groups |
| Days.FromTimestamp | src/day.rs:66-69 | a timestamp falls within the day it is converted to |
| Days.TimestampRoundTrip | src/day.rs:64-88 | a date survives the trip through its timestamp, and a timestamp is rounded down to its midnight |
| Days.NewDay | src/day.rs:20-34 | `Day::new` records date, n_ts and n_kp, and builds n_ts timeslots numbered 0..n_ts-1, each with n_kp free arenas carrying ids (0, 0, a) |
| Days.GetArena | src/day.rs:36-40 | a successful `get_arena` names a timeslot with the id's timeslot number and that timeslot's own answer; None when no timeslot has that number |
| Days.GetArenaFirstTimeslot | src/day.rs:36-40 | `get_arena` asks the first timeslot with the id's timeslot number: it succeeds exactly when that timeslot's `get_arena` does, and gives that timeslot's position and answer |
| Days.FreshDayArenaLookup | src/day.rs:20-40 | in a day built by `new`, an arena id resolves exactly when it names day 0, timeslot 0 and an existing arena number |
| Days.WithId | src/day.rs:56-61 | `set_id` sets the day id and each timeslot's day id, and nothing else |
| Days.SetId | src/day.rs:56-61 | the loop of `set_id` yields exactly `WithId` |
| Days.WithIdKeepsFresh | src/day.rs:51-62 | renumbering a fresh day renumbers its timeslots' day ids and leaves the arenas as built |
| Days.FreshDayData | src/day.rs:43-49 | the view of a fresh day has one entry per timeslot, in order, each listing n_kp free arenas |
| Days.ToSimpleDay | src/day.rs:75-88 | the simple view reports exactly the day's id, n_ts and n_kp, and a timestamp that converts back to the day's date |
| Days.FromSimpleDay | src/day.rs:64-73 | a simple day converts to a new day with id 0, the given counts and the timestamp's date (1970-01-01 when absent); the timestamp lies within that date |
| Days.ArenaPathOf | src/tournament_core.rs:93-99 | an arena id resolves in the first day carrying its day id, at the position that day's `get_arena` gives, to an arena slot with exactly that id; when some day carries the day id, the id resolves exactly when the first such day's `get_arena` succeeds; a day id that no day carries gives None |
| Days.ArenaPathOfFirstDay | src/tournament_core.rs:93-99 | for the first day `i` carrying the day id, the id resolves exactly when day `i`'s `get_arena` succeeds, and then in day `i` |
| Days.ArenaPathOfAppend | src/tournament_core.rs:93-99 | appending a day does not move an arena id that already resolves |
| Days.WithArenaKeepsLookups | src/tournament_core.rs:93-99 | writing back an arena slot with the same id changes no lookup and no valid position |
| Assignment.ClearGroupAt | src/tournament_core.rs:120 | clearing a group's arena changes that group only, and only by clearing its binding |
| Assignment.ClearArenaAt | src/tournament_core.rs:140 | clearing a slot's group changes that slot only, and only by clearing its binding |
| Assignment.ReplacePairKeepsConsistent | src/tournament_core.rs:105-165 | rewriting one group and one slot that were bound only to each other, so that they end up both free or bound to each other, keeps a consistent graph consistent |
| Assignment.FreeupGroupStep | src/tournament_core.rs:105-123 | an unknown group gives InvalidInput with no change; an unbound group gives Ok with no change; otherwise the group is cleared, and so is its recorded arena if that still resolves; nothing else changes |
| Assignment.FreeupArenaStep | src/tournament_core.rs:125-143 | the mirror image of `FreeupGroupStep` for arena slots |
| Assignment.UnbindGroupAt | src/tournament_core.rs:110-122 | for a found group: the group loses its arena, the slot it records loses its group if that slot resolves, and nothing else changes |
| Assignment.UnbindArenaAt | src/tournament_core.rs:130-142 | for a found arena slot: the slot loses its group, the group it records loses its arena if that group resolves, and nothing else changes |
| Assignment.FreeupGroupKeepsConsistent | src/tournament_core.rs:105-123 | `freeup_group` keeps a consistent graph consistent and leaves the group's former arena free |
| Assignment.FreeupArenaKeepsConsistent | src/tournament_core.rs:125-143 | `freeup_arena` keeps a consistent graph consistent and leaves the slot's former group free |
| Assignment.Bind | src/tournament_core.rs:161-162 | the slot records the group id, the group records the slot id, nothing else changes, and every lookup resolves as before |
| Assignment.AddGroupToArenaOutcomes | src/tournament_core.rs:145-165 | an unresolved arena gives InvalidInput with no change; a resolved arena with an unresolved group gives InvalidInput after the arena was already freed; otherwise the call succeeds and slot and group record and resolve to each other |
| Assignment.BindKeepsConsistent | src/tournament_core.rs:161-162 | binding a free group to a free slot keeps a consistent graph consistent |
| Assignment.FreeBothKeepsConsistent | src/tournament_core.rs:150-151 | the two frees keep the graph consistent, change no lookup, and leave the group and the slot free |
| Assignment.FreeBothFreesOldGroup | src/tournament_core.rs:150-151 | the two frees leave the slot's previous group free |
| Assignment.FreeBothFreesOldArena | src/tournament_core.rs:150-151 | the two frees leave the group's previous slot free |
| Assignment.AddGroupToArenaUnfold | src/tournament_core.rs:145-165 | when both ids resolve, `add_group_to_arena` is the two frees followed by the binding, at the same positions |
| Assignment.AddGroupToArenaKeepsConsistent | src/tournament_core.rs:145-165 | `add_group_to_arena` keeps a consistent graph consistent; on success the slot's previous group and the group's previous slot are left free |
| Assignment.AddGroupToArenaFreesOldPartners | src/tournament_core.rs:145-165 | after a successful `add_group_to_arena` on a consistent graph, the slot's previous group and the group's previous slot are free |
| Assignment.AddGroupToArenaSummary | src/tournament_core.rs:145-165 | `add_group_to_arena` succeeds exactly when both ids resolve, and it preserves consistency |
| Assignment.AddFreeDayKeepsConsistent | src/tournament_core.rs:43-52 | appending a day with no bound arena keeps a consistent graph consistent, whatever id the day has |
| Assignment.AddFreeBewerbKeepsConsistent | src/tournament_core.rs:62-65 | appending an event with no bound group keeps a consistent graph consistent |
| Assignment.FreeAll | src/tournament_core.rs:73-75 | freeing a list of groups one after the other only clears bindings |
| Assignment.FreeAllKeepsConsistent | src/tournament_core.rs:73-75 | the freeing loop keeps a consistent graph consistent |
| Assignment.FreeAllFrees | src/tournament_core.rs:73-75 | every group that one of the listed ids resolves to is free afterwards |
| Assignment.RemoveBewerbStep | src/tournament_core.rs:67-78 | `remove_bewerb` of an id that no event carries changes nothing |
| Assignment.RemoveBewerbCascade | src/tournament_core.rs:67-78 | when the event's groups resolve to themselves: after the frees, the graph is consistent, all of the event's groups are free, and no slot is bound into the event |
| Assignment.RemoveBewerbFreesArenas | src/tournament_core.rs:67-78 | under the same condition, every slot that was bound to a group of the event is free afterwards, and no event with the id remains |
| Assignment.StaleEventIdsMisdirectCascade | src/tournament_core.rs:72-74 | with two fresh events, the first group listed for the second event resolves into the first event, so the second event's groups do not resolve to themselves |
| Assignment.RemoveDayLeavesStaleGroups | src/tournament_core.rs:54-56 | a group bound to a slot of the removed day still records it, the slot no longer resolves, and the graph is no longer consistent |
| TournamentCore.Tournament.constructor | src/tournament_core.rs:23-29 | a new tournament has an empty name, no days and no events, and is consistent |
| TournamentCore.Tournament.AddDay | src/tournament_core.rs:43-52 | the loop finds the smallest unused day id; the day, renumbered with it, is appended; the other days and the events are unchanged; an unbound day keeps the tournament consistent |
| TournamentCore.Tournament.RemoveDay | src/tournament_core.rs:54-56 | every day with the id is dropped, in order, and nothing else changes |
| TournamentCore.Tournament.SimpleDays | src/tournament_core.rs:58-60 | one simple view per day, in order, with each day's id, counts and date |
| TournamentCore.Tournament.AddBewerb | src/tournament_core.rs:62-65 | a new event with the next unused id is appended, with as many rounds as the second argument and as many groups per round as the third; the tournament stays consistent |
| TournamentCore.Tournament.RemoveBewerb | src/tournament_core.rs:67-78 | equal to `RemoveBewerbStep`; afterwards no event carries the id |
| TournamentCore.Tournament.FreeupGroups | src/tournament_core.rs:72-75 | the loop over the listed group ids is exactly `FreeAll` |
| TournamentCore.Tournament.GetGroupById | src/tournament_core.rs:89-91 | returns a group exactly when the id resolves, and then the group at the resolved path: it carries the group's number and sits in the first round carrying the round id of the first event carrying the event id; no event with the event id gives None |
| TournamentCore.Tournament.GetArenaById | src/tournament_core.rs:101-103 | returns an arena slot exactly when the id resolves, and then the slot at the resolved path (first day with the day id, first timeslot with the timeslot number), which has exactly the id; no day with the day id gives None |
| TournamentCore.Tournament.FreeupGroup | src/tournament_core.rs:105-123 | the in-place update equals `FreeupGroupStep` and keeps the tournament consistent |
| TournamentCore.Tournament.FreeupArena | src/tournament_core.rs:125-143 | the in-place update equals `FreeupArenaStep` and keeps the tournament consistent |
| TournamentCore.Tournament.AddGroupToArena | src/tournament_core.rs:145-165 | equal to `AddGroupToArenaStep`; succeeds exactly when both ids resolve; keeps the tournament consistent |
| TournamentCore.Tournament.BindAfterFrees | src/tournament_core.rs:153-162 | looks both ids up again and binds them, equal to `AfterFrees` |
| TournamentCore.Tournament.GetDayData | src/tournament_core.rs:167-173 | InvalidInput exactly when no day has the id; otherwise the view of the first day with it |
| FencerRegistry.NewBewerbGroup | src/fencer.rs:19-26 | a new per-event entry has the event and no groups |
| FencerRegistry.EmptyGroups | src/fencer.rs:83 | one empty per-event entry per given event, in order |
| FencerRegistry.EmptyGroupsRoundTrip | src/fencer.rs:62-94 | listing the events of freshly built entries gives the given events back |
| FencerRegistry.Fencer.New | src/fencer.rs:79-85 | a new fencer has id 0, the name and one empty entry per event; its simple view is (0, name, events) |
| FencerRegistry.Fencer.FromSaveable | src/fencer.rs:52-60 | a fencer loaded from a saved form saves back to exactly that form |
| FencerRegistry.Fencer.Saveable | src/fencer.rs:42-50 | the saved form carries the fencer's id, name and per-event groups |
| FencerRegistry.Fencer.Simple | src/fencer.rs:62-76 | the simple view carries id, name and the events in order, without the groups |
| FencerRegistry.Fencer.Update | src/fencer.rs:87-94 | keeps the id, takes the name, resets the entries to one empty entry per given event, dropping earlier groups; `is_same` then holds exactly when the ids agree |
| FencerRegistry.Fencer.SetId | src/fencer.rs:101-108 | `set_id` changes only the id |
| FencerRegistry.IsSameIffSimpleAgrees | src/fencer.rs:96-98 | `is_same` holds exactly when id and name agree; a fencer is the same as its own simple view |
| FencerRegistry.Kept | src/fencer.rs:131-133 | the kept fencers are exactly those with another id, and there are no more of them than before |
| FencerRegistry.KeptConcat | src/fencer.rs:131-133 | removal works element by element over a concatenation, so the kept fencers keep their relative order and their multiplicity |
| FencerRegistry.KeptAbsent | src/fencer.rs:131-133 | removing an id that no fencer has keeps every fencer |
| FencerRegistry.Fencers.FencerIds | src/fencer.rs:118 | the ids of the fencers, position by position |
| FencerRegistry.Fencers.From | src/fencer.rs:139-147 | one fencer per saved form, in order, with the saved ids (no ids handed out again) |
| FencerRegistry.Fencers.GetNewId | src/fencer.rs:116-123 | the counting loop returns the smallest unused fencer id, at most the fencer count |
| FencerRegistry.Fencers.Push | src/fencer.rs:125-129 | the fencer gets the smallest unused id and is appended; the list of ids grows by that id, the other fencers stay as they were, and distinct ids stay distinct |
| FencerRegistry.Fencers.Remove | src/fencer.rs:131-133 | the new list is `Kept` of the old one: exactly the fencers with another id, in their order (`KeptConcat`) |
| FencerRegistry.Fencers.Get | src/fencer.rs:135-137 | the first fencer with the id, or None exactly when no fencer has it |
| FencerRegistry.Fencers.Saveables | src/fencer.rs:176-185 | one saved form per fencer, in order |
| FencerRegistry.Fencers.ToSaveables | src/fencer.rs:176-185 | the conversion loop yields exactly `Saveables` |

## Left out

- **Persistence and service layers.** JSON file input and output is not modelled (`from_json_file`, `to_json_file`, `save_to_file`, serde). Nor are the gRPC services and the tokio `Mutex` that guards the tournament. The model stops at the in-memory saved records.
- **Sharing and locking.** `Arc` sharing and `Mutex` locking of arena slots and fencers are not modelled; the model is single-threaded. An arena slot holds its group's id rather than a shared pointer.
- **Warnings.** The `println!` warnings are no-ops.
- **Dates.** The calendar arithmetic of chrono and prost is not modelled beyond the conversion between a day number and seconds; sub-second parts are not modelled.
- **Integer width.** Ids and counts are unbounded naturals rather than `u32`. A new id never exceeds the element count, so the wrap-around cannot arise from `push`.
- **Mutable iterators.** `iter_mut` of the containers is not a separate member. Its uses (`set_id`, `set_bewerb_id`) are modelled as loops over the sequence.
- **`update_fencers` and `get_all_fencers`.** The fencer service calls them, but `Tournament` does not define them, so they are not modelled.
- **`Fencers::iter`.** It is not a separate member; the fencer list is the `fencers` field, in insertion order.
- Container.Insert: `insert` is modelled as a plain append without an ensures of its own; what it keeps (the ids and their order) is stated by `Rounds.LoadedKeepsIds`.
- Bewerbs.GetGroupById: its own contract states only where a successful lookup points. That the lookup asks the first round carrying the round id, answers as that round does, and finds nothing without such a round is stated by `Bewerbs.GetGroupByIdFirstRound` and `Bewerbs.GetGroupByIdNoRound`. This keeps the contract small, since every proof about the competition tree reads it.
- Days.GetArena: its own contract does not say that the timeslot it asks is the first one with the timeslot number, nor that it then succeeds exactly when that timeslot does. `Days.GetArenaFirstTimeslot` states both, for the same reason as above.
- Rounds.FreeIds: states which ids are listed (exactly those of unbound groups). It does not state that they come in the groups' order, although the definition keeps that order.
- TournamentCore.Tournament.RemoveBewerb: consistency after the event itself is dropped is not proved. The cascade before the removal is proved (`RemoveBewerbCascade`, `RemoveBewerbFreesArenas`).
- TournamentCore.Tournament.RemoveDay: does not preserve consistency, as in the code; `RemoveDayLeavesStaleGroups` shows how it breaks.
- **Value semantics inside the trees.** The tournament, a fencer and the fencer list are classes whose methods update their fields in place. The entities inside the two trees are values: the arena slot's `set_group` and `set_id` and the group's setters are functions that return the updated value, and a write through a lookup replaces the value at its path. Aliasing through `Arc` is not modelled.
