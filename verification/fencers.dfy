/**
 * The fencer registry (fencer.rs): fencers are shared objects whose name
 * and event list are updated in place, held in a flat list that hands out
 * the smallest unused id, like the id container does.
 */
module FencerRegistry {
  import opened Common
  import opened Identifiers
  import opened Container

  /** The groups a fencer fences in, within one event. */
  datatype BewerbGroup = BewerbGroup(bewerbId: BewerbId, groups: seq<GroupId>)

  /** `BewerbGroup::new`: the event, no groups yet. */
  function NewBewerbGroup(id: BewerbId): (r: BewerbGroup)
    ensures r.bewerbId == id && r.groups == []
  {
    BewerbGroup(id, [])
  }

  /** One empty `BewerbGroup` per event, in the given order. */
  function EmptyGroups(bids: seq<BewerbId>): (r: seq<BewerbGroup>)
    ensures |r| == |bids|
    ensures forall k :: 0 <= k < |bids| ==> r[k] == NewBewerbGroup(bids[k])
  {
    seq(|bids|, k requires 0 <= k < |bids| => NewBewerbGroup(bids[k]))
  }

  /** The events of a list of per-event groups, in order. */
  function BewerbIdsOf(gs: seq<BewerbGroup>): (r: seq<BewerbId>)
    ensures |r| == |gs|
  {
    seq(|gs|, k requires 0 <= k < |gs| => gs[k].bewerbId)
  }

  /** Making empty per-event groups and listing their events gives the events back. */
  lemma EmptyGroupsRoundTrip(bids: seq<BewerbId>)
    ensures BewerbIdsOf(EmptyGroups(bids)) == bids
  {
    var r := BewerbIdsOf(EmptyGroups(bids));
    assert forall k :: 0 <= k < |bids| ==> r[k] == bids[k];
  }

  /** The saved form of a fencer. */
  datatype FencerSaveable = FencerSaveable(id: nat, name: string, bewerbs: seq<BewerbGroup>)

  /** The client view of a fencer (`tournament::SimpleFencer`): its events without the groups. */
  datatype SimpleFencer = SimpleFencer(id: nat, name: string, bewerbs: seq<BewerbId>)

  class Fencer {
    var id: nat
    var name: string
    var bewerbs: seq<BewerbGroup>

    /** `Fencer::new`: id 0 and one empty `BewerbGroup` per given event. */
    constructor New(name: string, bids: seq<BewerbId>)
      ensures id == 0 && this.name == name && bewerbs == EmptyGroups(bids)
      ensures Simple() == SimpleFencer(0, name, bids)
    {
      id := 0;
      this.name := name;
      bewerbs := EmptyGroups(bids);
      EmptyGroupsRoundTrip(bids);
    }

    /** `From<FencerSaveable> for Fencer`: everything as saved. */
    constructor FromSaveable(fs: FencerSaveable)
      ensures id == fs.id && name == fs.name && bewerbs == fs.bewerbs
      ensures Saveable() == fs
    {
      id := fs.id;
      name := fs.name;
      bewerbs := fs.bewerbs;
    }

    /** `From<&Fencer> for FencerSaveable`. */
    function Saveable(): (r: FencerSaveable)
      reads this
      ensures r.id == id && r.name == name && r.bewerbs == bewerbs
    {
      FencerSaveable(id, name, bewerbs)
    }

    /** `From<&Fencer> for SimpleFencer`. */
    function Simple(): (r: SimpleFencer)
      reads this
      ensures r.id == id && r.name == name && |r.bewerbs| == |bewerbs|
      ensures forall k :: 0 <= k < |bewerbs| ==> r.bewerbs[k] == bewerbs[k].bewerbId
    {
      SimpleFencer(id, name, BewerbIdsOf(bewerbs))
    }

    /**
     * `update`: the name from `sf`, and one empty `BewerbGroup` per event of
     * `sf`; the id is kept and earlier group bindings are dropped.
     */
    method Update(sf: SimpleFencer)
      modifies this
      ensures id == old(id) && name == sf.name && bewerbs == EmptyGroups(sf.bewerbs)
      ensures Simple() == sf.(id := old(id))
      ensures IsSame(sf) <==> old(id) == sf.id
    {
      name := sf.name;
      bewerbs := EmptyGroups(sf.bewerbs);
      EmptyGroupsRoundTrip(sf.bewerbs);
    }

    /** `is_same`: the same id and the same name. */
    predicate IsSame(sf: SimpleFencer)
      reads this
    {
      id == sf.id && name == sf.name
    }

    /** `HasId::set_id`. */
    method SetId(i: nat)
      modifies this
      ensures id == i && name == old(name) && bewerbs == old(bewerbs)
    {
      id := i;
    }
  }

  /** A fencer is the same as its own client view, and as no view with another id or name. */
  lemma IsSameIffSimpleAgrees(f: Fencer, sf: SimpleFencer)
    ensures f.IsSame(f.Simple())
    ensures f.IsSame(sf) <==> sf.id == f.Simple().id && sf.name == f.Simple().name
  {
  }

  /** The fencers of `fs` whose id is not `id`, in their order. */
  function Kept(fs: seq<Fencer>, id: nat): (r: seq<Fencer>)
    reads fs
    ensures |r| <= |fs|
    ensures forall f :: f in r ==> f in fs && f.id != id
    ensures forall f :: f in fs && f.id != id ==> f in r
  {
    if fs == [] then []
    else
      var init := fs[..|fs| - 1];
      var last := fs[|fs| - 1];
      assert forall f :: f in fs ==> f in init || f == last;
      Kept(init, id) + if last.id != id then [last] else []
  }

  /** Removing an id nobody has keeps every fencer. */
  lemma {:induction false} KeptAbsent(fs: seq<Fencer>, id: nat)
    requires forall k :: 0 <= k < |fs| ==> fs[k].id != id
    ensures Kept(fs, id) == fs
  {
    if fs != [] {
      KeptAbsent(fs[..|fs| - 1], id);
      assert fs[..|fs| - 1] + [fs[|fs| - 1]] == fs;
    }
  }

  /**
   * Removal works element by element: the kept fencers of a concatenation
   * are the kept fencers of each part, one after the other, so the
   * survivors keep their relative order and every copy of a survivor stays.
   */
  lemma {:induction false} KeptConcat(a: seq<Fencer>, b: seq<Fencer>, id: nat)
    ensures Kept(a + b, id) == Kept(a, id) + Kept(b, id)
    decreases |b|
  {
    if b == [] {
      assert a + b == a;
    } else {
      var b0 := b[..|b| - 1];
      assert (a + b)[..|a + b| - 1] == a + b0;
      assert (a + b)[|a + b| - 1] == b[|b| - 1];
      KeptConcat(a, b0, id);
    }
  }

  class Fencers {
    var fencers: seq<Fencer>

    /** The fencers' ids, in list order. */
    function FencerIds(): (r: seq<nat>)
      reads this, fencers
      ensures |r| == |fencers| && forall k :: 0 <= k < |fencers| ==> r[k] == fencers[k].id
    {
      var fs := fencers;
      seq(|fs|, k requires 0 <= k < |fs| reads fs => fs[k].id)
    }

    /** `Fencers::from`: one new fencer per saved one, ids and order as saved. */
    constructor From(saves: seq<FencerSaveable>)
      ensures |fencers| == |saves|
      ensures forall k :: 0 <= k < |saves| ==> fencers[k].Saveable() == saves[k]
      ensures FencerIds() == seq(|saves|, k requires 0 <= k < |saves| => saves[k].id)
    {
      var vec: seq<Fencer> := [];
      var i := 0;
      while i < |saves|
        invariant 0 <= i <= |saves| && |vec| == i
        invariant forall k :: 0 <= k < i ==> vec[k].Saveable() == saves[k]
      {
        var f := new Fencer.FromSaveable(saves[i]);
        vec := vec + [f];
        i := i + 1;
      }
      fencers := vec;
    }

    /** `get_new_id`: count up from 0 until an id no fencer has. */
    method GetNewId() returns (id: nat)
      ensures SmallestUnused(FencerIds(), id) && id == NewId(FencerIds())
      ensures id <= |fencers|
    {
      var ids := FencerIds();
      id := 0;
      while id in ids
        invariant forall j :: 0 <= j < id ==> j in ids
        decreases |ids| - id
      {
        RangeCovered(ids, id + 1);
        id := id + 1;
      }
      RangeCovered(ids, id);
      SmallestUnusedUnique(ids, id, NewId(ids));
    }

    /**
     * `push`: the new fencer gets the smallest unused id and goes to the
     * end; the fencers already there keep their ids and their order.
     */
    method Push(item: Fencer)
      requires item !in fencers
      modifies this, item
      ensures fencers == old(fencers) + [item]
      ensures item.id == NewId(old(FencerIds())) && item.name == old(item.name) && item.bewerbs == old(item.bewerbs)
      ensures FencerIds() == old(FencerIds()) + [item.id]
      ensures DistinctIds(old(FencerIds())) ==> DistinctIds(FencerIds())
    {
      ghost var ids := FencerIds();
      var id := GetNewId();
      item.SetId(id);
      fencers := fencers + [item];
      if DistinctIds(ids) {
        PushKeepsDistinct(ids);
      }
    }

    /** `remove`: drop every fencer with this id, keeping the others in order. */
    method Remove(id: nat)
      modifies this
      ensures fencers == Kept(old(fencers), id)
    {
      var kept: seq<Fencer> := [];
      var i := 0;
      while i < |fencers|
        invariant 0 <= i <= |fencers|
        invariant kept == Kept(fencers[..i], id)
      {
        assert fencers[..i + 1][..i] == fencers[..i];
        if fencers[i].id != id {
          kept := kept + [fencers[i]];
        }
        i := i + 1;
      }
      assert fencers[..|fencers|] == fencers;
      fencers := kept;
    }

    /** `get`: the first fencer with this id, or None when no fencer has it. */
    function Get(id: nat): (r: Option<Fencer>)
      reads this, fencers
      ensures r.Some? ==> r.value in fencers && r.value.id == id
      ensures r.Some? ==> exists k :: 0 <= k < |fencers| && fencers[k] == r.value &&
                                      forall j :: 0 <= j < k ==> fencers[j].id != id
      ensures r.None? <==> id !in FencerIds()
    {
      match FindIndex(FencerIds(), id)
      case None => None
      case Some(k) => Some(fencers[k])
    }

    /** The saved forms of all fencers, in list order. */
    function Saveables(): (r: seq<FencerSaveable>)
      reads this, fencers
      ensures |r| == |fencers| && forall k :: 0 <= k < |fencers| ==> r[k] == fencers[k].Saveable()
    {
      var fs := fencers;
      seq(|fs|, k requires 0 <= k < |fs| reads fs => fs[k].Saveable())
    }

    /** `From<&Fencers> for Vec<FencerSaveable>`: one saved form per fencer, in order. */
    method ToSaveables() returns (res: seq<FencerSaveable>)
      ensures res == Saveables()
    {
      res := [];
      var i := 0;
      while i < |fencers|
        invariant 0 <= i <= |fencers| && |res| == i
        invariant forall k :: 0 <= k < i ==> res[k] == fencers[k].Saveable()
      {
        res := res + [fencers[i].Saveable()];
        i := i + 1;
      }
    }
  }
}
