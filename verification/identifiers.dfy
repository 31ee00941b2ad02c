/**
 * The hierarchical identifiers of the two trees.  Scheduling:
 * day -> timeslot -> arena slot; competition: event (Bewerb) -> round ->
 * group, where the competition ids also carry the event's name.
 */
module Identifiers {

  /** bewerb.rs:6-10 */
  datatype BewerbId = BewerbId(bewerbName: string, bewerbId: nat)

  /** round.rs:7-12 */
  datatype RoundId = RoundId(bewerbName: string, bewerbId: nat, roundId: nat)

  /** group.rs:5-11 */
  datatype GroupId = GroupId(bewerbName: string, bewerbId: nat, roundId: nat, groupId: nat)

  /** timeslot.rs:8-12 */
  datatype TimeslotId = TimeslotId(dayId: nat, timeslotId: nat)

  /** arena_slot.rs:9-14 */
  datatype ArenaSlotId = ArenaSlotId(dayId: nat, timeslotId: nat, arenaSlotId: nat)
}
