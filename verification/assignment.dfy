/**
 * The assignment of groups to arena slots (tournament_core.rs:105-165,
 * 67-78) as functions of the two trees a tournament owns: the days with
 * their timeslots and arena slots, and the events with their rounds and
 * groups.  A group records the id of its arena slot, an arena slot the id
 * of its group, and each side is found again by id lookup.
 */
module Assignment {
  import opened Common
  import opened Identifiers
  import opened Container
  import opened Groups
  import opened Rounds
  import opened Bewerbs
  import opened ArenaSlots
  import opened Days

  /** The days and the events of a tournament. */
  datatype Graph = Graph(days: seq<Day>, bewerbs: seq<Bewerb>)

  // ---------------------------------------------------------------------
  // Partners and the consistency of the two-sided binding
  // ---------------------------------------------------------------------

  /** Where the arena slot a group records is found, if it records one and it resolves. */
  function GroupPartner(w: Graph, gp: GroupPath): Option<ArenaPath>
    requires IsGroupPath(w.bewerbs, gp)
  {
    match GroupAt(w.bewerbs, gp).arena
    case None => None
    case Some(aid) => ArenaPathOf(w.days, aid)
  }

  /** Where the group an arena slot records is found, if it records one and it resolves. */
  function ArenaPartner(w: Graph, ap: ArenaPath): Option<GroupPath>
    requires IsArenaPath(w.days, ap)
  {
    match ArenaAt(w.days, ap).group
    case None => None
    case Some(gid) => GroupPathOf(w.bewerbs, gid)
  }

  /**
   * Every binding is two-sided: a group that records an arena slot finds a
   * slot that records a group leading back to it, and the other way round.
   */
  ghost predicate Consistent(w: Graph)
  {
    GroupsConsistent(w) && ArenasConsistent(w)
  }

  /** The group half of `Consistent`. */
  ghost predicate GroupsConsistent(w: Graph)
  {
    forall gp :: IsGroupPath(w.bewerbs, gp) && GroupAt(w.bewerbs, gp).arena.Some? ==>
      GroupPartner(w, gp).Some? && ArenaPartner(w, GroupPartner(w, gp).value) == Some(gp)
  }

  /** The arena half of `Consistent`. */
  ghost predicate ArenasConsistent(w: Graph)
  {
    forall ap :: IsArenaPath(w.days, ap) && ArenaAt(w.days, ap).group.Some? ==>
      ArenaPartner(w, ap).Some? && GroupPartner(w, ArenaPartner(w, ap).value) == Some(ap)
  }

  /** Every group id and arena slot id resolves alike in both graphs, and the same paths exist. */
  ghost predicate SameLookups(w: Graph, w': Graph)
  {
    && (forall gid :: GroupPathOf(w'.bewerbs, gid) == GroupPathOf(w.bewerbs, gid))
    && (forall aid :: ArenaPathOf(w'.days, aid) == ArenaPathOf(w.days, aid))
    && (forall p :: IsGroupPath(w'.bewerbs, p) <==> IsGroupPath(w.bewerbs, p))
    && (forall p :: IsArenaPath(w'.days, p) <==> IsArenaPath(w.days, p))
  }

  /**
   * `w'` differs from `w` at most by cleared bindings: every group and
   * every arena slot is either unchanged or the same with its binding
   * removed.
   */
  ghost predicate OnlyClears(w: Graph, w': Graph)
  {
    && SameLookups(w, w')
    && (forall q :: IsGroupPath(w.bewerbs, q) ==>
          (GroupAt(w'.bewerbs, q) == GroupAt(w.bewerbs, q) ||
           GroupAt(w'.bewerbs, q) == SetArena(GroupAt(w.bewerbs, q), None)))
    && (forall q :: IsArenaPath(w.days, q) ==>
          (ArenaAt(w'.days, q) == ArenaAt(w.days, q) ||
           ArenaAt(w'.days, q) == SetGroup(ArenaAt(w.days, q), None)))
  }

  lemma SameLookupsTrans(w: Graph, w': Graph, w'': Graph)
    requires SameLookups(w, w') && SameLookups(w', w'')
    ensures SameLookups(w, w'')
  {
  }

  /** A free group stays free when only bindings are cleared. */
  lemma OnlyClearsKeepsFreeGroup(w: Graph, w': Graph, q: GroupPath)
    requires OnlyClears(w, w') && IsGroupPath(w.bewerbs, q) && GroupAt(w.bewerbs, q).arena.None?
    ensures IsGroupPath(w'.bewerbs, q) && GroupAt(w'.bewerbs, q).arena.None?
  {
  }

  /** A free arena slot stays free when only bindings are cleared. */
  lemma OnlyClearsKeepsFreeArena(w: Graph, w': Graph, q: ArenaPath)
    requires OnlyClears(w, w') && IsArenaPath(w.days, q) && ArenaAt(w.days, q).group.None?
    ensures IsArenaPath(w'.days, q) && ArenaAt(w'.days, q).group.None?
  {
  }

  lemma OnlyClearsTrans(w: Graph, w': Graph, w'': Graph)
    requires OnlyClears(w, w') && OnlyClears(w', w'')
    ensures OnlyClears(w, w'')
  {
  }

  // ---------------------------------------------------------------------
  // Clearing one side of a binding
  // ---------------------------------------------------------------------

  /** The group at `gp` with its arena removed (`group.set_arena(None)`). */
  function ClearGroupAt(w: Graph, gp: GroupPath): (r: Graph)
    requires IsGroupPath(w.bewerbs, gp)
    ensures OnlyClears(w, r) && r.days == w.days
    ensures IsGroupPath(r.bewerbs, gp) && GroupAt(r.bewerbs, gp) == SetArena(GroupAt(w.bewerbs, gp), None)
    ensures forall q :: IsGroupPath(w.bewerbs, q) && q != gp ==> GroupAt(r.bewerbs, q) == GroupAt(w.bewerbs, q)
  {
    var g := GroupAt(w.bewerbs, gp);
    WithGroupFrame(w.bewerbs, gp, SetArena(g, None));
    WithGroupKeepsLookups(w.bewerbs, gp, SetArena(g, None));
    w.(bewerbs := WithGroup(w.bewerbs, gp, SetArena(g, None)))
  }

  /** The arena slot at `ap` with its group removed (`arena.set_group(None)`). */
  function ClearArenaAt(w: Graph, ap: ArenaPath): (r: Graph)
    requires IsArenaPath(w.days, ap)
    ensures OnlyClears(w, r) && r.bewerbs == w.bewerbs
    ensures IsArenaPath(r.days, ap) && ArenaAt(r.days, ap) == SetGroup(ArenaAt(w.days, ap), None)
    ensures forall q :: IsArenaPath(w.days, q) && q != ap ==> ArenaAt(r.days, q) == ArenaAt(w.days, q)
  {
    var s := ArenaAt(w.days, ap);
    WithArenaFrame(w.days, ap, SetGroup(s, None));
    WithArenaKeepsLookups(w.days, ap, SetGroup(s, None));
    w.(days := WithArena(w.days, ap, SetGroup(s, None)))
  }

  /**
   * Both sides of a binding cleared: the group at `gp` and the arena slot
   * at `ap` lose their records, and nothing else changes.  The two trees
   * are disjoint, so the order of the two clears does not matter.
   */
  function ClearPair(w: Graph, gp: GroupPath, ap: ArenaPath): (r: Graph)
    requires IsGroupPath(w.bewerbs, gp) && IsArenaPath(w.days, ap)
    ensures OnlyClears(w, r)
    ensures IsGroupPath(r.bewerbs, gp) && GroupAt(r.bewerbs, gp) == SetArena(GroupAt(w.bewerbs, gp), None)
    ensures forall q :: IsGroupPath(w.bewerbs, q) && q != gp ==> GroupAt(r.bewerbs, q) == GroupAt(w.bewerbs, q)
    ensures IsArenaPath(r.days, ap) && ArenaAt(r.days, ap) == SetGroup(ArenaAt(w.days, ap), None)
    ensures forall q :: IsArenaPath(w.days, q) && q != ap ==> ArenaAt(r.days, q) == ArenaAt(w.days, q)
  {
    var w1 := ClearArenaAt(w, ap);
    var w2 := ClearGroupAt(w1, gp);
    OnlyClearsTrans(w, w1, w2);
    w2
  }

  /** `w'` is `w` except possibly at the group at `gp` and the arena slot at `ap`. */
  ghost predicate ChangedAtMost(w: Graph, w': Graph, gp: GroupPath, ap: ArenaPath)
  {
    && SameLookups(w, w')
    && (forall q :: IsGroupPath(w.bewerbs, q) && q != gp ==> GroupAt(w'.bewerbs, q) == GroupAt(w.bewerbs, q))
    && (forall q :: IsArenaPath(w.days, q) && q != ap ==> ArenaAt(w'.days, q) == ArenaAt(w.days, q))
  }

  /**
   * Rewriting one group and one arena slot that were bound to nothing but
   * each other, so that afterwards they are either both free or bound to
   * each other, keeps a consistent graph consistent.  This covers both
   * freeing a binding and making one.
   */
  lemma ReplacePairKeepsConsistent(w: Graph, w': Graph, gp: GroupPath, ap: ArenaPath)
    requires Consistent(w)
    requires IsGroupPath(w.bewerbs, gp) && IsArenaPath(w.days, ap)
    requires ChangedAtMost(w, w', gp, ap)
    requires GroupPartner(w, gp).None? || GroupPartner(w, gp) == Some(ap)
    requires ArenaPartner(w, ap).None? || ArenaPartner(w, ap) == Some(gp)
    requires (GroupAt(w'.bewerbs, gp).arena.None? && ArenaAt(w'.days, ap).group.None?) ||
             (GroupPartner(w', gp) == Some(ap) && ArenaPartner(w', ap) == Some(gp))
    ensures Consistent(w')
  {
    forall q | IsGroupPath(w'.bewerbs, q) && GroupAt(w'.bewerbs, q).arena.Some?
      ensures GroupPartner(w', q).Some? && ArenaPartner(w', GroupPartner(w', q).value) == Some(q)
    {
      if q != gp {
        ReplacePairKeepsGroup(w, w', gp, ap, q);
      }
    }
    forall q | IsArenaPath(w'.days, q) && ArenaAt(w'.days, q).group.Some?
      ensures ArenaPartner(w', q).Some? && GroupPartner(w', ArenaPartner(w', q).value) == Some(q)
    {
      if q != ap {
        ReplacePairKeepsArena(w, w', gp, ap, q);
      }
    }
  }

  /** The group half of `ReplacePairKeepsConsistent`, for one group that was not rewritten. */
  lemma ReplacePairKeepsGroup(w: Graph, w': Graph, gp: GroupPath, ap: ArenaPath, q: GroupPath)
    requires GroupsConsistent(w)
    requires IsGroupPath(w.bewerbs, gp) && IsArenaPath(w.days, ap)
    requires ChangedAtMost(w, w', gp, ap)
    requires ArenaPartner(w, ap).None? || ArenaPartner(w, ap) == Some(gp)
    requires IsGroupPath(w'.bewerbs, q) && q != gp && GroupAt(w'.bewerbs, q).arena.Some?
    ensures GroupPartner(w', q).Some? && ArenaPartner(w', GroupPartner(w', q).value) == Some(q)
  {
    assert IsGroupPath(w.bewerbs, q);
    var g := GroupAt(w.bewerbs, q);
    assert GroupAt(w'.bewerbs, q) == g;
    var aid := g.arena.value;
    assert GroupPartner(w, q).Some? && ArenaPartner(w, GroupPartner(w, q).value) == Some(q);
    var aq := ArenaPathOf(w.days, aid).value;
    assert ArenaPathOf(w'.days, aid) == Some(aq);
    assert aq != ap;
    var gid := ArenaAt(w.days, aq).group.value;
    assert ArenaAt(w'.days, aq) == ArenaAt(w.days, aq);
    assert GroupPathOf(w'.bewerbs, gid) == GroupPathOf(w.bewerbs, gid);
  }

  /** The arena half of `ReplacePairKeepsConsistent`, for one arena slot that was not rewritten. */
  lemma ReplacePairKeepsArena(w: Graph, w': Graph, gp: GroupPath, ap: ArenaPath, q: ArenaPath)
    requires ArenasConsistent(w)
    requires IsGroupPath(w.bewerbs, gp) && IsArenaPath(w.days, ap)
    requires ChangedAtMost(w, w', gp, ap)
    requires GroupPartner(w, gp).None? || GroupPartner(w, gp) == Some(ap)
    requires IsArenaPath(w'.days, q) && q != ap && ArenaAt(w'.days, q).group.Some?
    ensures ArenaPartner(w', q).Some? && GroupPartner(w', ArenaPartner(w', q).value) == Some(q)
  {
    assert ArenaAt(w'.days, q) == ArenaAt(w.days, q);
    assert ArenaPartner(w', q) == ArenaPartner(w, q);
    var gq := ArenaPartner(w, q).value;
    assert gq != gp;
    assert GroupAt(w'.bewerbs, gq) == GroupAt(w.bewerbs, gq);
  }

  // ---------------------------------------------------------------------
  // freeup_group, freeup_arena
  // ---------------------------------------------------------------------

  /**
   * `freeup_group` (tournament_core.rs:105-123): an unknown group is an
   * error; a group without an arena is left alone; otherwise the recorded
   * arena slot is cleared if it can still be found, and the group is
   * cleared in any case.
   */
  function FreeupGroupStep(w: Graph, gid: GroupId): (r: (Status, Graph))
    ensures OnlyClears(w, r.1)
    ensures GroupPathOf(w.bewerbs, gid).None? ==> r == (Err(InvalidInput), w)
    ensures GroupPathOf(w.bewerbs, gid).Some? ==>
              var gp := GroupPathOf(w.bewerbs, gid).value;
              && r.0 == Ok
              && GroupAt(r.1.bewerbs, gp) == SetArena(GroupAt(w.bewerbs, gp), None)
              && (forall q :: IsGroupPath(w.bewerbs, q) && q != gp ==> GroupAt(r.1.bewerbs, q) == GroupAt(w.bewerbs, q))
              && (GroupPartner(w, gp).Some? ==>
                    ArenaAt(r.1.days, GroupPartner(w, gp).value) == SetGroup(ArenaAt(w.days, GroupPartner(w, gp).value), None))
              && (forall q :: IsArenaPath(w.days, q) && Some(q) != GroupPartner(w, gp) ==>
                    ArenaAt(r.1.days, q) == ArenaAt(w.days, q))
  {
    match GroupPathOf(w.bewerbs, gid)
    case None => (Err(InvalidInput), w)
    case Some(gp) => (Ok, UnbindGroupAt(w, gp))
  }

  /** The found-group part of `freeup_group`, for the group at `gp`. */
  function UnbindGroupAt(w: Graph, gp: GroupPath): (r: Graph)
    requires IsGroupPath(w.bewerbs, gp)
    ensures OnlyClears(w, r)
    ensures GroupAt(r.bewerbs, gp) == SetArena(GroupAt(w.bewerbs, gp), None)
    ensures forall q :: IsGroupPath(w.bewerbs, q) && q != gp ==> GroupAt(r.bewerbs, q) == GroupAt(w.bewerbs, q)
    ensures GroupPartner(w, gp).Some? ==>
              ArenaAt(r.days, GroupPartner(w, gp).value) == SetGroup(ArenaAt(w.days, GroupPartner(w, gp).value), None)
    ensures forall q :: IsArenaPath(w.days, q) && Some(q) != GroupPartner(w, gp) ==> ArenaAt(r.days, q) == ArenaAt(w.days, q)
  {
    if GroupAt(w.bewerbs, gp).arena.None? then w
    else
      match GroupPartner(w, gp)
      case None => ClearGroupAt(w, gp)
      case Some(ap) => ClearPair(w, gp, ap)
  }

  /**
   * `freeup_arena` (tournament_core.rs:125-143), the mirror image: an
   * unknown arena slot is an error; a free one is left alone; otherwise the
   * recorded group is cleared if it can still be found, and the slot is
   * cleared in any case.
   */
  function FreeupArenaStep(w: Graph, aid: ArenaSlotId): (r: (Status, Graph))
    ensures OnlyClears(w, r.1)
    ensures ArenaPathOf(w.days, aid).None? ==> r == (Err(InvalidInput), w)
    ensures ArenaPathOf(w.days, aid).Some? ==>
              var ap := ArenaPathOf(w.days, aid).value;
              && r.0 == Ok
              && ArenaAt(r.1.days, ap) == SetGroup(ArenaAt(w.days, ap), None)
              && (forall q :: IsArenaPath(w.days, q) && q != ap ==> ArenaAt(r.1.days, q) == ArenaAt(w.days, q))
              && (ArenaPartner(w, ap).Some? ==>
                    GroupAt(r.1.bewerbs, ArenaPartner(w, ap).value) == SetArena(GroupAt(w.bewerbs, ArenaPartner(w, ap).value), None))
              && (forall q :: IsGroupPath(w.bewerbs, q) && Some(q) != ArenaPartner(w, ap) ==>
                    GroupAt(r.1.bewerbs, q) == GroupAt(w.bewerbs, q))
  {
    match ArenaPathOf(w.days, aid)
    case None => (Err(InvalidInput), w)
    case Some(ap) => (Ok, UnbindArenaAt(w, ap))
  }

  /** The found-slot part of `freeup_arena`, for the arena slot at `ap`. */
  function UnbindArenaAt(w: Graph, ap: ArenaPath): (r: Graph)
    requires IsArenaPath(w.days, ap)
    ensures OnlyClears(w, r)
    ensures ArenaAt(r.days, ap) == SetGroup(ArenaAt(w.days, ap), None)
    ensures forall q :: IsArenaPath(w.days, q) && q != ap ==> ArenaAt(r.days, q) == ArenaAt(w.days, q)
    ensures ArenaPartner(w, ap).Some? ==>
              GroupAt(r.bewerbs, ArenaPartner(w, ap).value) == SetArena(GroupAt(w.bewerbs, ArenaPartner(w, ap).value), None)
    ensures forall q :: IsGroupPath(w.bewerbs, q) && Some(q) != ArenaPartner(w, ap) ==> GroupAt(r.bewerbs, q) == GroupAt(w.bewerbs, q)
  {
    if ArenaAt(w.days, ap).group.None? then w
    else
      match ArenaPartner(w, ap)
      case None => ClearArenaAt(w, ap)
      case Some(gp) => ClearPair(w, gp, ap)
  }

  /**
   * On a consistent graph `freeup_group` keeps it consistent, and a bound
   * group ends up free together with the arena slot it was bound to.
   */
  lemma FreeupGroupKeepsConsistent(w: Graph, gid: GroupId)
    requires Consistent(w)
    ensures Consistent(FreeupGroupStep(w, gid).1)
    ensures GroupPathOf(w.bewerbs, gid).Some? ==>
              var gp := GroupPathOf(w.bewerbs, gid).value;
              GroupAt(w.bewerbs, gp).arena.Some? ==>
                && GroupPartner(w, gp).Some?
                && ArenaAt(FreeupGroupStep(w, gid).1.days, GroupPartner(w, gp).value).group.None?
  {
    match GroupPathOf(w.bewerbs, gid)
    case None =>
    case Some(gp) =>
      if GroupAt(w.bewerbs, gp).arena.Some? {
        var ap := GroupPartner(w, gp).value;
        ReplacePairKeepsConsistent(w, FreeupGroupStep(w, gid).1, gp, ap);
      }
  }

  /** The mirror image for `freeup_arena`. */
  lemma FreeupArenaKeepsConsistent(w: Graph, aid: ArenaSlotId)
    requires Consistent(w)
    ensures Consistent(FreeupArenaStep(w, aid).1)
    ensures ArenaPathOf(w.days, aid).Some? ==>
              var ap := ArenaPathOf(w.days, aid).value;
              ArenaAt(w.days, ap).group.Some? ==>
                && ArenaPartner(w, ap).Some?
                && GroupAt(FreeupArenaStep(w, aid).1.bewerbs, ArenaPartner(w, ap).value).arena.None?
  {
    match ArenaPathOf(w.days, aid)
    case None =>
    case Some(ap) =>
      if ArenaAt(w.days, ap).group.Some? {
        var gp := ArenaPartner(w, ap).value;
        ReplacePairKeepsConsistent(w, FreeupArenaStep(w, aid).1, gp, ap);
      }
  }

  // ---------------------------------------------------------------------
  // add_group_to_arena
  // ---------------------------------------------------------------------

  /** Both sides written: the slot records `gid`, the group records `aid`. */
  function Bind(w: Graph, gp: GroupPath, ap: ArenaPath, gid: GroupId, aid: ArenaSlotId): (r: Graph)
    requires IsGroupPath(w.bewerbs, gp) && IsArenaPath(w.days, ap)
    ensures SameLookups(w, r)
    ensures IsGroupPath(r.bewerbs, gp) && IsArenaPath(r.days, ap)
    ensures GroupAt(r.bewerbs, gp) == SetArena(GroupAt(w.bewerbs, gp), Some(aid))
    ensures ArenaAt(r.days, ap) == SetGroup(ArenaAt(w.days, ap), Some(gid))
    ensures forall q :: IsGroupPath(w.bewerbs, q) && q != gp ==> GroupAt(r.bewerbs, q) == GroupAt(w.bewerbs, q)
    ensures forall q :: IsArenaPath(w.days, q) && q != ap ==> ArenaAt(r.days, q) == ArenaAt(w.days, q)
  {
    var g := GroupAt(w.bewerbs, gp);
    var s := ArenaAt(w.days, ap);
    WithGroupFrame(w.bewerbs, gp, SetArena(g, Some(aid)));
    WithArenaFrame(w.days, ap, SetGroup(s, Some(gid)));
    WithGroupKeepsLookups(w.bewerbs, gp, SetArena(g, Some(aid)));
    WithArenaKeepsLookups(w.days, ap, SetGroup(s, Some(gid)));
    Graph(WithArena(w.days, ap, SetGroup(s, Some(gid))), WithGroup(w.bewerbs, gp, SetArena(g, Some(aid))))
  }

  /**
   * `add_group_to_arena` (tournament_core.rs:145-165): free the arena slot,
   * free the group (returning on the first error), look both up again, and
   * bind them to each other.
   */
  function AddGroupToArenaStep(w: Graph, gid: GroupId, aid: ArenaSlotId): (r: (Status, Graph))
  {
    var r1 := FreeupArenaStep(w, aid);
    if r1.0.Err? then r1
    else
      var r2 := FreeupGroupStep(r1.1, gid);
      if r2.0.Err? then r2
      else AfterFrees(r2.1, gid, aid)
  }

  /** The rest of `add_group_to_arena` once both frees succeeded: look both up again and bind them. */
  function AfterFrees(w2: Graph, gid: GroupId, aid: ArenaSlotId): (r: (Status, Graph))
  {
    match ArenaPathOf(w2.days, aid)
    case None => (Err(InvalidInput), w2)
    case Some(ap) =>
      match GroupPathOf(w2.bewerbs, gid)
      case None => (Err(InvalidInput), w2)
      case Some(gp) => (Ok, Bind(w2, gp, ap, gid, aid))
  }

  /**
   * The outcomes of `add_group_to_arena`, on any graph: an arena id that
   * does not resolve is an error before anything changes; a group id that
   * does not resolve is an error after the arena slot was already freed;
   * otherwise the slot records the group and the group records the slot,
   * each one found from the other.
   */
  lemma AddGroupToArenaOutcomes(w: Graph, gid: GroupId, aid: ArenaSlotId)
    ensures ArenaPathOf(w.days, aid).None? ==> AddGroupToArenaStep(w, gid, aid) == (Err(InvalidInput), w)
    ensures ArenaPathOf(w.days, aid).Some? && GroupPathOf(w.bewerbs, gid).None? ==>
              AddGroupToArenaStep(w, gid, aid) == (Err(InvalidInput), FreeupArenaStep(w, aid).1)
    ensures AddGroupToArenaStep(w, gid, aid).0 == Ok <==>
              ArenaPathOf(w.days, aid).Some? && GroupPathOf(w.bewerbs, gid).Some?
    ensures ArenaPathOf(w.days, aid).Some? && GroupPathOf(w.bewerbs, gid).Some? ==>
              var w' := AddGroupToArenaStep(w, gid, aid).1;
              var ap := ArenaPathOf(w.days, aid).value;
              var gp := GroupPathOf(w.bewerbs, gid).value;
              && SameLookups(w, w')
              && ArenaAt(w'.days, ap).group == Some(gid)
              && GroupAt(w'.bewerbs, gp).arena == Some(aid)
              && ArenaPartner(w', ap) == Some(gp)
              && GroupPartner(w', gp) == Some(ap)
  {
    var r1 := FreeupArenaStep(w, aid);
    if r1.0.Err? {
      assert AddGroupToArenaStep(w, gid, aid) == r1 == (Err(InvalidInput), w);
    } else {
      assert GroupPathOf(r1.1.bewerbs, gid) == GroupPathOf(w.bewerbs, gid);
      var r2 := FreeupGroupStep(r1.1, gid);
      if r2.0.Err? {
        assert AddGroupToArenaStep(w, gid, aid) == r2 == (Err(InvalidInput), r1.1);
      } else {
        var w2 := r2.1;
        OnlyClearsTrans(w, r1.1, w2);
        var ap := ArenaPathOf(w.days, aid).value;
        var gp := GroupPathOf(w.bewerbs, gid).value;
        assert ArenaPathOf(w2.days, aid) == Some(ap) && GroupPathOf(w2.bewerbs, gid) == Some(gp);
        var w' := Bind(w2, gp, ap, gid, aid);
        assert AddGroupToArenaStep(w, gid, aid) == (Ok, w');
        SameLookupsTrans(w, w2, w');
      }
    }
  }

  /** Binding a free group to a free arena slot keeps a consistent graph consistent. */
  lemma BindKeepsConsistent(w: Graph, gp: GroupPath, ap: ArenaPath, gid: GroupId, aid: ArenaSlotId)
    requires Consistent(w)
    requires GroupPathOf(w.bewerbs, gid) == Some(gp) && ArenaPathOf(w.days, aid) == Some(ap)
    requires GroupAt(w.bewerbs, gp).arena.None? && ArenaAt(w.days, ap).group.None?
    ensures Consistent(Bind(w, gp, ap, gid, aid))
  {
    ReplacePairKeepsConsistent(w, Bind(w, gp, ap, gid, aid), gp, ap);
  }

  /**
   * The two frees `add_group_to_arena` starts with, on a consistent graph
   * where both ids resolve: the result is consistent, finds the same
   * things, and has the group and the slot free.
   */
  lemma FreeBothKeepsConsistent(w: Graph, gid: GroupId, aid: ArenaSlotId)
    requires Consistent(w)
    requires ArenaPathOf(w.days, aid).Some? && GroupPathOf(w.bewerbs, gid).Some?
    ensures var w2 := FreeupGroupStep(FreeupArenaStep(w, aid).1, gid).1;
            && Consistent(w2)
            && SameLookups(w, w2)
            && ArenaAt(w2.days, ArenaPathOf(w.days, aid).value).group.None?
            && GroupAt(w2.bewerbs, GroupPathOf(w.bewerbs, gid).value).arena.None?
  {
    var ap := ArenaPathOf(w.days, aid).value;
    var w1 := FreeupArenaStep(w, aid).1;
    FreeupArenaKeepsConsistent(w, aid);
    assert GroupPathOf(w1.bewerbs, gid) == GroupPathOf(w.bewerbs, gid);
    var w2 := FreeupGroupStep(w1, gid).1;
    FreeupGroupKeepsConsistent(w1, gid);
    OnlyClearsTrans(w, w1, w2);
    OnlyClearsKeepsFreeArena(w1, w2, ap);
  }

  /** The same two frees also leave the slot's previous group free. */
  lemma FreeBothFreesOldGroup(w: Graph, gid: GroupId, aid: ArenaSlotId)
    requires Consistent(w)
    requires ArenaPathOf(w.days, aid).Some? && GroupPathOf(w.bewerbs, gid).Some?
    ensures var w2 := FreeupGroupStep(FreeupArenaStep(w, aid).1, gid).1;
            var ap := ArenaPathOf(w.days, aid).value;
            ArenaPartner(w, ap).Some? ==> GroupAt(w2.bewerbs, ArenaPartner(w, ap).value).arena.None?
  {
    var ap := ArenaPathOf(w.days, aid).value;
    var w1 := FreeupArenaStep(w, aid).1;
    if ArenaPartner(w, ap).Some? {
      var gp0 := ArenaPartner(w, ap).value;
      assert GroupAt(w1.bewerbs, gp0).arena.None?;
      OnlyClearsKeepsFreeGroup(w1, FreeupGroupStep(w1, gid).1, gp0);
    }
  }

  /** The same two frees also leave the group's previous slot free. */
  lemma FreeBothFreesOldArena(w: Graph, gid: GroupId, aid: ArenaSlotId)
    requires Consistent(w)
    requires ArenaPathOf(w.days, aid).Some? && GroupPathOf(w.bewerbs, gid).Some?
    ensures var w2 := FreeupGroupStep(FreeupArenaStep(w, aid).1, gid).1;
            var gp := GroupPathOf(w.bewerbs, gid).value;
            GroupPartner(w, gp).Some? ==> ArenaAt(w2.days, GroupPartner(w, gp).value).group.None?
  {
    var ap := ArenaPathOf(w.days, aid).value;
    var gp := GroupPathOf(w.bewerbs, gid).value;
    var w1 := FreeupArenaStep(w, aid).1;
    assert GroupPathOf(w1.bewerbs, gid) == Some(gp);
    if GroupPartner(w, gp).Some? {
      var ap0 := GroupPartner(w, gp).value;
      if ap0 == ap {
        assert ArenaAt(w1.days, ap).group.None?;
        OnlyClearsKeepsFreeArena(w1, FreeupGroupStep(w1, gid).1, ap);
      } else {
        assert ArenaPartner(w, ap) != Some(gp);
        assert GroupAt(w1.bewerbs, gp) == GroupAt(w.bewerbs, gp);
        assert GroupPartner(w1, gp) == Some(ap0);
      }
    }
  }

  /** When `add_group_to_arena` succeeds, it is the two frees followed by the binding. */
  lemma AddGroupToArenaUnfold(w: Graph, gid: GroupId, aid: ArenaSlotId)
    requires ArenaPathOf(w.days, aid).Some? && GroupPathOf(w.bewerbs, gid).Some?
    ensures var w2 := FreeupGroupStep(FreeupArenaStep(w, aid).1, gid).1;
            var ap := ArenaPathOf(w.days, aid).value;
            var gp := GroupPathOf(w.bewerbs, gid).value;
            && ArenaPathOf(w2.days, aid) == Some(ap) && GroupPathOf(w2.bewerbs, gid) == Some(gp)
            && AddGroupToArenaStep(w, gid, aid) == (Ok, Bind(w2, gp, ap, gid, aid))
  {
    var w1 := FreeupArenaStep(w, aid).1;
    assert GroupPathOf(w1.bewerbs, gid) == GroupPathOf(w.bewerbs, gid);
    OnlyClearsTrans(w, w1, FreeupGroupStep(w1, gid).1);
  }

  /**
   * On a consistent graph `add_group_to_arena` keeps it consistent, and
   * when both ids resolve (exactly when it succeeds) the slot's previous group and the group's previous slot are
   * left free.
   */
  lemma AddGroupToArenaKeepsConsistent(w: Graph, gid: GroupId, aid: ArenaSlotId)
    requires Consistent(w)
    ensures Consistent(AddGroupToArenaStep(w, gid, aid).1)
    ensures ArenaPathOf(w.days, aid).Some? && GroupPathOf(w.bewerbs, gid).Some? ==>
              var w' := AddGroupToArenaStep(w, gid, aid).1;
              var ap := ArenaPathOf(w.days, aid).value;
              var gp := GroupPathOf(w.bewerbs, gid).value;
              && (ArenaPartner(w, ap).Some? && ArenaPartner(w, ap).value != gp ==>
                    GroupAt(w'.bewerbs, ArenaPartner(w, ap).value).arena.None?)
              && (GroupPartner(w, gp).Some? && GroupPartner(w, gp).value != ap ==>
                    ArenaAt(w'.days, GroupPartner(w, gp).value).group.None?)
  {
    if ArenaPathOf(w.days, aid).None? {
      assert AddGroupToArenaStep(w, gid, aid) == FreeupArenaStep(w, aid);
    } else if GroupPathOf(w.bewerbs, gid).None? {
      var w1 := FreeupArenaStep(w, aid).1;
      FreeupArenaKeepsConsistent(w, aid);
      assert GroupPathOf(w1.bewerbs, gid).None?;
      assert AddGroupToArenaStep(w, gid, aid) == FreeupGroupStep(w1, gid);
    } else {
      AddGroupToArenaBindsConsistently(w, gid, aid);
    }
  }

  /** The succeeding case of `AddGroupToArenaKeepsConsistent`. */
  lemma AddGroupToArenaBindsConsistently(w: Graph, gid: GroupId, aid: ArenaSlotId)
    requires Consistent(w)
    requires ArenaPathOf(w.days, aid).Some? && GroupPathOf(w.bewerbs, gid).Some?
    ensures var w' := AddGroupToArenaStep(w, gid, aid).1;
            var ap := ArenaPathOf(w.days, aid).value;
            var gp := GroupPathOf(w.bewerbs, gid).value;
            && Consistent(w')
            && (ArenaPartner(w, ap).Some? && ArenaPartner(w, ap).value != gp ==>
                  GroupAt(w'.bewerbs, ArenaPartner(w, ap).value).arena.None?)
            && (GroupPartner(w, gp).Some? && GroupPartner(w, gp).value != ap ==>
                  ArenaAt(w'.days, GroupPartner(w, gp).value).group.None?)
  {
    var w2 := FreeupGroupStep(FreeupArenaStep(w, aid).1, gid).1;
    var ap := ArenaPathOf(w.days, aid).value;
    var gp := GroupPathOf(w.bewerbs, gid).value;
    FreeBothKeepsConsistent(w, gid, aid);
    AddGroupToArenaUnfold(w, gid, aid);
    BindKeepsConsistent(w2, gp, ap, gid, aid);
    AddGroupToArenaFreesOldPartners(w, gid, aid);
  }

  /** After a successful `add_group_to_arena` the slot's and the group's previous partners are free. */
  lemma AddGroupToArenaFreesOldPartners(w: Graph, gid: GroupId, aid: ArenaSlotId)
    requires Consistent(w)
    requires ArenaPathOf(w.days, aid).Some? && GroupPathOf(w.bewerbs, gid).Some?
    ensures var w' := AddGroupToArenaStep(w, gid, aid).1;
            var ap := ArenaPathOf(w.days, aid).value;
            var gp := GroupPathOf(w.bewerbs, gid).value;
            && (ArenaPartner(w, ap).Some? && ArenaPartner(w, ap).value != gp ==>
                  GroupAt(w'.bewerbs, ArenaPartner(w, ap).value).arena.None?)
            && (GroupPartner(w, gp).Some? && GroupPartner(w, gp).value != ap ==>
                  ArenaAt(w'.days, GroupPartner(w, gp).value).group.None?)
  {
    FreeBothKeepsConsistent(w, gid, aid);
    FreeBothFreesOldGroup(w, gid, aid);
    FreeBothFreesOldArena(w, gid, aid);
    AddGroupToArenaUnfold(w, gid, aid);
  }

  /** The two facts about `add_group_to_arena` its in-place version states. */
  lemma AddGroupToArenaSummary(w: Graph, gid: GroupId, aid: ArenaSlotId)
    ensures AddGroupToArenaStep(w, gid, aid).0 == Ok <==>
              ArenaPathOf(w.days, aid).Some? && GroupPathOf(w.bewerbs, gid).Some?
    ensures Consistent(w) ==> Consistent(AddGroupToArenaStep(w, gid, aid).1)
  {
    AddGroupToArenaOutcomes(w, gid, aid);
    if Consistent(w) {
      AddGroupToArenaKeepsConsistent(w, gid, aid);
    }
  }

  // ---------------------------------------------------------------------
  // add_day, add_bewerb
  // ---------------------------------------------------------------------

  /** No arena slot of the day is bound to a group. */
  ghost predicate DayFree(d: Day)
  {
    forall t, a :: 0 <= t < |d.timeslots.vec| && 0 <= a < |d.timeslots.vec[t].arenas| ==>
      d.timeslots.vec[t].arenas[a].group.None?
  }

  /** No group of the event is bound to an arena slot. */
  ghost predicate BewerbFree(b: Bewerb)
  {
    forall r, g :: 0 <= r < |b.rounds.vec| && 0 <= g < |b.rounds.vec[r].groups.vec| ==>
      b.rounds.vec[r].groups.vec[g].arena.None?
  }

  /** After a day is appended, a bound group finds the same arena slot, which still leads back to it. */
  lemma AddDayKeepsGroup(w: Graph, d: Day, q: GroupPath)
    requires GroupsConsistent(w)
    requires IsGroupPath(w.bewerbs, q) && GroupAt(w.bewerbs, q).arena.Some?
    ensures var w' := Graph(w.days + [d], w.bewerbs);
            GroupPartner(w', q).Some? && ArenaPartner(w', GroupPartner(w', q).value) == Some(q)
  {
    var aid := GroupAt(w.bewerbs, q).arena.value;
    assert GroupPartner(w, q).Some?;
    ArenaPathOfAppend(w.days, d, aid);
    var aq := ArenaPathOf(w.days, aid).value;
    assert (w.days + [d])[aq.d] == w.days[aq.d];
  }

  /** After a day is appended, a bound arena slot of the earlier days still finds its group, which leads back to it. */
  lemma AddDayKeepsArena(w: Graph, d: Day, q: ArenaPath)
    requires ArenasConsistent(w)
    requires IsArenaPath(w.days, q) && ArenaAt(w.days, q).group.Some?
    ensures var w' := Graph(w.days + [d], w.bewerbs);
            && IsArenaPath(w'.days, q) && ArenaAt(w'.days, q) == ArenaAt(w.days, q)
            && ArenaPartner(w', q).Some? && GroupPartner(w', ArenaPartner(w', q).value) == Some(q)
  {
    assert (w.days + [d])[q.d] == w.days[q.d];
    var gq := ArenaPartner(w, q).value;
    ArenaPathOfAppend(w.days, d, GroupAt(w.bewerbs, gq).arena.value);
  }

  /**
   * Appending a day none of whose arena slots is bound (what `add_day`
   * does) keeps a consistent graph consistent, whatever id the day has:
   * lookups find the first day with an id, so the earlier days still win.
   */
  lemma AddFreeDayKeepsConsistent(w: Graph, d: Day)
    requires Consistent(w) && DayFree(d)
    ensures Consistent(Graph(w.days + [d], w.bewerbs))
  {
    var w' := Graph(w.days + [d], w.bewerbs);
    forall q | IsGroupPath(w'.bewerbs, q) && GroupAt(w'.bewerbs, q).arena.Some?
      ensures GroupPartner(w', q).Some? && ArenaPartner(w', GroupPartner(w', q).value) == Some(q)
    {
      AddDayKeepsGroup(w, d, q);
    }
    forall q | IsArenaPath(w'.days, q) && ArenaAt(w'.days, q).group.Some?
      ensures ArenaPartner(w', q).Some? && GroupPartner(w', ArenaPartner(w', q).value) == Some(q)
    {
      if q.d < |w.days| {
        AddDayKeepsArena(w, d, q);
      }
    }
  }

  /** After an event is appended, a bound arena slot finds the same group, which still leads back to it. */
  lemma AddBewerbKeepsArena(w: Graph, b: Bewerb, q: ArenaPath)
    requires ArenasConsistent(w)
    requires IsArenaPath(w.days, q) && ArenaAt(w.days, q).group.Some?
    ensures var w' := Graph(w.days, w.bewerbs + [b]);
            ArenaPartner(w', q).Some? && GroupPartner(w', ArenaPartner(w', q).value) == Some(q)
  {
    var gid := ArenaAt(w.days, q).group.value;
    assert ArenaPartner(w, q).Some?;
    GroupPathOfAppend(w.bewerbs, b, gid);
    var gq := GroupPathOf(w.bewerbs, gid).value;
    assert (w.bewerbs + [b])[gq.b] == w.bewerbs[gq.b];
  }

  /** After an event is appended, a bound group of the earlier events still finds its arena slot, which leads back to it. */
  lemma AddBewerbKeepsGroup(w: Graph, b: Bewerb, q: GroupPath)
    requires GroupsConsistent(w)
    requires IsGroupPath(w.bewerbs, q) && GroupAt(w.bewerbs, q).arena.Some?
    ensures var w' := Graph(w.days, w.bewerbs + [b]);
            && IsGroupPath(w'.bewerbs, q) && GroupAt(w'.bewerbs, q) == GroupAt(w.bewerbs, q)
            && GroupPartner(w', q).Some? && ArenaPartner(w', GroupPartner(w', q).value) == Some(q)
  {
    assert (w.bewerbs + [b])[q.b] == w.bewerbs[q.b];
    var aq := GroupPartner(w, q).value;
    GroupPathOfAppend(w.bewerbs, b, ArenaAt(w.days, aq).group.value);
  }

  /** `add_bewerb` of an event none of whose groups is bound keeps a consistent graph consistent. */
  lemma AddFreeBewerbKeepsConsistent(w: Graph, b: Bewerb)
    requires Consistent(w) && BewerbFree(b)
    ensures Consistent(Graph(w.days, w.bewerbs + [b]))
  {
    var w' := Graph(w.days, w.bewerbs + [b]);
    forall q | IsGroupPath(w'.bewerbs, q) && GroupAt(w'.bewerbs, q).arena.Some?
      ensures GroupPartner(w', q).Some? && ArenaPartner(w', GroupPartner(w', q).value) == Some(q)
    {
      if q.b < |w.bewerbs| {
        AddBewerbKeepsGroup(w, b, q);
      }
    }
    forall q | IsArenaPath(w'.days, q) && ArenaAt(w'.days, q).group.Some?
      ensures ArenaPartner(w', q).Some? && GroupPartner(w', ArenaPartner(w', q).value) == Some(q)
    {
      AddBewerbKeepsArena(w, b, q);
    }
  }

  // ---------------------------------------------------------------------
  // remove_bewerb
  // ---------------------------------------------------------------------

  /** `freeup_group` on each id in turn, its errors ignored (tournament_core.rs:73-75). */
  function FreeAll(w: Graph, gids: seq<GroupId>): (r: Graph)
    ensures OnlyClears(w, r)
    decreases |gids|
  {
    if gids == [] then w
    else
      var w1 := FreeupGroupStep(w, gids[0]).1;
      OnlyClearsTrans(w, w1, FreeAll(w1, gids[1..]));
      FreeAll(w1, gids[1..])
  }

  /** `remove_bewerb` (tournament_core.rs:67-78). */
  function RemoveBewerbStep(w: Graph, id: nat): (r: Graph)
    ensures Find(w.bewerbs, id, BewerbHasId).None? ==> r == w
  {
    match Find(w.bewerbs, id, BewerbHasId)
    case None => w
    case Some(bi) =>
      var w1 := FreeAll(w, GroupsOf(w.bewerbs[bi].rounds.vec));
      Graph(w1.days, Retained(w1.bewerbs, id, BewerbHasId))
  }

  /** Freeing a list of groups one by one keeps a consistent graph consistent. */
  lemma {:induction false} FreeAllKeepsConsistent(w: Graph, gids: seq<GroupId>)
    requires Consistent(w)
    ensures Consistent(FreeAll(w, gids))
    decreases |gids|
  {
    if gids != [] {
      FreeupGroupKeepsConsistent(w, gids[0]);
      FreeAllKeepsConsistent(FreeupGroupStep(w, gids[0]).1, gids[1..]);
    }
  }

  /** Every group that one of the listed ids resolves to is free afterwards. */
  lemma {:induction false} FreeAllFrees(w: Graph, gids: seq<GroupId>, j: nat, gp: GroupPath)
    requires j < |gids| && GroupPathOf(w.bewerbs, gids[j]) == Some(gp)
    ensures IsGroupPath(FreeAll(w, gids).bewerbs, gp)
    ensures GroupAt(FreeAll(w, gids).bewerbs, gp).arena.None?
    decreases |gids|
  {
    var w1 := FreeupGroupStep(w, gids[0]).1;
    assert FreeAll(w, gids) == FreeAll(w1, gids[1..]);
    if j == 0 {
      assert GroupAt(w1.bewerbs, gp).arena.None?;
      OnlyClearsKeepsFreeGroup(w1, FreeAll(w1, gids[1..]), gp);
    } else {
      assert GroupPathOf(w1.bewerbs, gids[1..][j - 1]) == Some(gp);
      FreeAllFrees(w1, gids[1..], j - 1, gp);
    }
  }

  /** Every group of event `i` is found again by its own id. */
  ghost predicate SelfResolving(bs: seq<Bewerb>, i: nat)
  {
    forall p :: IsGroupPath(bs, p) && p.b == i ==> GroupPathOf(bs, GroupAt(bs, p).id) == Some(p)
  }

  /**
   * The cascade of `remove_bewerb` on a consistent graph whose removed event
   * finds its groups by their own ids: before the event is dropped, all its
   * groups are free, the graph is still consistent, and no arena slot is
   * left bound to one of them.
   */
  lemma RemoveBewerbCascade(w: Graph, id: nat)
    requires Consistent(w)
    requires Find(w.bewerbs, id, BewerbHasId).Some?
    requires SelfResolving(w.bewerbs, Find(w.bewerbs, id, BewerbHasId).value)
    ensures var i := Find(w.bewerbs, id, BewerbHasId).value;
            var w1 := FreeAll(w, GroupsOf(w.bewerbs[i].rounds.vec));
            && RemoveBewerbStep(w, id) == Graph(w1.days, Retained(w1.bewerbs, id, BewerbHasId))
            && Consistent(w1)
            && (forall p :: IsGroupPath(w1.bewerbs, p) && p.b == i ==> GroupAt(w1.bewerbs, p).arena.None?)
            && (forall ap :: IsArenaPath(w1.days, ap) && ArenaAt(w1.days, ap).group.Some? ==>
                  ArenaPartner(w1, ap).Some? && ArenaPartner(w1, ap).value.b != i)
  {
    var i := Find(w.bewerbs, id, BewerbHasId).value;
    var gids := GroupsOf(w.bewerbs[i].rounds.vec);
    var w1 := FreeAll(w, gids);
    FreeAllKeepsConsistent(w, gids);
    forall p | IsGroupPath(w1.bewerbs, p) && p.b == i
      ensures GroupAt(w1.bewerbs, p).arena.None?
    {
      var x := GroupAt(w.bewerbs, p).id;
      assert x in gids;
      var j :| 0 <= j < |gids| && gids[j] == x;
      FreeAllFrees(w, gids, j, p);
    }
  }

  /**
   * The cascade seen from the arena side: every arena slot that was bound
   * to a group of the removed event is free afterwards, and no event with
   * the removed id is left.
   */
  lemma RemoveBewerbFreesArenas(w: Graph, id: nat)
    requires Consistent(w)
    requires Find(w.bewerbs, id, BewerbHasId).Some?
    requires SelfResolving(w.bewerbs, Find(w.bewerbs, id, BewerbHasId).value)
    ensures var i := Find(w.bewerbs, id, BewerbHasId).value;
            forall ap :: IsArenaPath(w.days, ap) && ArenaPartner(w, ap).Some? && ArenaPartner(w, ap).value.b == i ==>
              IsArenaPath(RemoveBewerbStep(w, id).days, ap) && ArenaAt(RemoveBewerbStep(w, id).days, ap).group.None?
    ensures id !in Ids(RemoveBewerbStep(w, id).bewerbs, BewerbHasId)
  {
    var i := Find(w.bewerbs, id, BewerbHasId).value;
    var w1 := FreeAll(w, GroupsOf(w.bewerbs[i].rounds.vec));
    RemoveBewerbCascade(w, id);
    RetainedRemoves(w1.bewerbs, id, BewerbHasId);
  }

  /**
   * `remove_day` frees nothing: a group bound to an arena slot of a removed
   * day still records that slot, whose id no longer resolves, so the
   * binding is one-sided afterwards.
   */
  lemma RemoveDayLeavesStaleGroups(w: Graph, id: nat, q: GroupPath)
    requires IsGroupPath(w.bewerbs, q)
    requires GroupAt(w.bewerbs, q).arena.Some? && GroupAt(w.bewerbs, q).arena.value.dayId == id
    ensures var w' := Graph(Retained(w.days, id, DayHasId), w.bewerbs);
            && GroupAt(w'.bewerbs, q).arena.Some?
            && GroupPartner(w', q).None?
            && !Consistent(w')
  {
    RetainedRemoves(w.days, id, DayHasId);
  }

  /**
   * Why the cascade can miss: events pushed after the first keep the event
   * id 0 in their groups' ids (the event's `set_id` does not reach them), so
   * the first group listed for the second event resolves into the first
   * event, and `remove_bewerb` of the second event frees a group of the
   * first one instead.
   */
  lemma StaleEventIdsMisdirectCascade(bs: seq<Bewerb>)
    requires |bs| == 2 && Bewerbs.GetId(bs[0]) == 0 && Bewerbs.GetId(bs[1]) == 1
    requires forall k :: 0 <= k < 2 ==>
               |bs[k].rounds.vec| > 0 && IsFreshRound(bs[k].rounds.vec[0], BewerbId(bs[k].id.bewerbName, 0), 0, 1)
    ensures var gids := GroupsOf(bs[1].rounds.vec);
            |gids| > 0 && GroupPathOf(bs, gids[0]) == Some(GroupPath(0, 0, 0))
    ensures !SelfResolving(bs, 1)
  {
    GroupsOfFirst(bs[1].rounds.vec);
    var x := GroupsOf(bs[1].rounds.vec)[0];
    assert x.bewerbId == 0;
    assert Find(bs, 0, BewerbHasId) == Some(0);
    var r0 := bs[0].rounds.vec;
    assert Find(r0, 0, RoundHasId) == Some(0) by {
      assert Rounds.GetId(r0[0]) == 0;
    }
    assert Rounds.GetGroupById(r0[0], x) == Some(0) by {
      assert Groups.GetId(r0[0].groups.vec[0]) == 0;
    }
    assert IsGroupPath(bs, GroupPath(1, 0, 0));
  }
}
