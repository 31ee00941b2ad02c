/**
 * The id-keyed collection `UidContainer` of container.rs: a vector of
 * elements, each of which knows its own numeric id.  A new element gets the
 * smallest non-negative integer that no element carries yet; removal drops
 * every element with a given id; iteration is insertion order.
 */
module Container {
  import opened Common

  /**
   * The `HasId` trait (container.rs:4-7) as a record of its two operations.
   * `setId` returns the updated element instead of mutating it in place.
   */
  datatype HasId<!T(!new)> = HasId(getId: T -> nat, setId: (T, nat) -> T)
  {
    /** Every implementation in the source reads back the id it was given. */
    ghost predicate Lawful()
    {
      forall x: T, i: nat :: getId(setId(x, i)) == i
    }
  }

  datatype UidContainer<T> = UidContainer(vec: seq<T>)

  /** The ids of the elements, in insertion order (the `ids` vector of container.rs:17). */
  function Ids<T(!new)>(s: seq<T>, h: HasId<T>): seq<nat>
  {
    seq<nat>(|s|, k requires 0 <= k < |s| => h.getId(s[k]))
  }

  ghost predicate DistinctIds(ids: seq<nat>)
  {
    forall i, j :: 0 <= i < j < |ids| ==> ids[i] != ids[j]
  }

  /** `id` is the smallest non-negative integer that is not in `ids`. */
  ghost predicate SmallestUnused(ids: seq<nat>, id: nat)
  {
    id !in ids && forall j :: 0 <= j < id ==> j in ids
  }

  lemma SmallestUnusedUnique(ids: seq<nat>, a: nat, b: nat)
    requires SmallestUnused(ids, a) && SmallestUnused(ids, b)
    ensures a == b
  {
  }

  /** Pigeonhole: if all of 0..k-1 occur in `ids`, then `ids` has at least k entries. */
  lemma {:induction false} RangeCovered(ids: seq<nat>, k: nat)
    requires forall j :: 0 <= j < k ==> j in ids
    ensures k <= |ids|
    decreases k
  {
    if k > 0 {
      assert k - 1 in ids;
      var p :| 0 <= p < |ids| && ids[p] == k - 1;
      var rest := ids[..p] + ids[p + 1..];
      forall j | 0 <= j < k - 1 ensures j in rest {
        assert j in ids;
        var q :| 0 <= q < |ids| && ids[q] == j;
        if q < p {
          assert rest[q] == j;
        } else {
          assert rest[q - 1] == j;
        }
      }
      RangeCovered(rest, k - 1);
    }
  }

  // ---------------------------------------------------------------------
  // The allocation function (container.rs:15-22) and its loop
  // ---------------------------------------------------------------------

  /** The search of `get_new_id` started at `k`, once 0..k-1 are known to be taken. */
  function NewIdFrom(ids: seq<nat>, k: nat): (r: nat)
    requires forall j :: 0 <= j < k ==> j in ids
    ensures SmallestUnused(ids, r) && k <= r <= |ids|
    decreases |ids| - k
  {
    if k !in ids then
      RangeCovered(ids, k);
      k
    else
      RangeCovered(ids, k + 1);
      NewIdFrom(ids, k + 1)
  }

  /** The id `push` hands out: the smallest unused one, never above the element count. */
  function NewId(ids: seq<nat>): (r: nat)
    ensures SmallestUnused(ids, r) && r <= |ids|
  {
    NewIdFrom(ids, 0)
  }

  /** `get_new_id`: count up from 0 while the candidate is taken. */
  method GetNewId<T(!new)>(c: UidContainer<T>, h: HasId<T>) returns (id: nat)
    ensures SmallestUnused(Ids(c.vec, h), id)
    ensures id == NewId(Ids(c.vec, h)) && id <= |c.vec|
  {
    var ids := Ids(c.vec, h);
    id := 0;
    while id in ids
      invariant forall j :: 0 <= j < id ==> j in ids
      decreases |ids| - id
    {
      RangeCovered(ids, id + 1);
      id := id + 1;
    }
    SmallestUnusedUnique(ids, id, NewId(ids));
  }

  /** If the ids are exactly 0..n-1 in order (a freshly built container), the next id is n. */
  lemma NewIdAfterRange(ids: seq<nat>)
    requires forall k :: 0 <= k < |ids| ==> ids[k] == k
    ensures NewId(ids) == |ids|
  {
    var r := NewId(ids);
    if r < |ids| {
      assert ids[r] in ids;
    }
  }

  // ---------------------------------------------------------------------
  // push (container.rs:24-28)
  // ---------------------------------------------------------------------

  /** `push`: stamp the item with the new id and append it; earlier elements stay as they are. */
  method Push<T(!new)>(c: UidContainer<T>, item: T, h: HasId<T>) returns (c': UidContainer<T>)
    requires h.Lawful()
    ensures c'.vec == c.vec + [h.setId(item, NewId(Ids(c.vec, h)))]
    ensures Ids(c'.vec, h) == Ids(c.vec, h) + [NewId(Ids(c.vec, h))]
  {
    var id := GetNewId(c, h);
    c' := UidContainer(c.vec + [h.setId(item, id)]);
  }

  /** Pushing keeps the ids pairwise distinct. */
  lemma PushKeepsDistinct(ids: seq<nat>)
    requires DistinctIds(ids)
    ensures DistinctIds(ids + [NewId(ids)])
  {
    var n := NewId(ids);
    var ids' := ids + [n];
    forall i, j | 0 <= i < j < |ids'| ensures ids'[i] != ids'[j] {
      if j == |ids| {
        assert ids'[i] == ids[i];
        assert ids[i] in ids;
      }
    }
  }

  /**
   * Iteration follows insertion and not id order: whenever some element
   * carries an id above the one `push` hands out next, the ids after the
   * push are out of increasing order, with the new id last.
   */
  lemma IterationIsInsertionOrder<T(!new)>(c: UidContainer<T>, item: T, h: HasId<T>)
    requires h.Lawful()
    requires exists k :: 0 <= k < |c.vec| && h.getId(c.vec[k]) > NewId(Ids(c.vec, h))
    ensures var ids' := Ids(c.vec + [h.setId(item, NewId(Ids(c.vec, h)))], h);
            && ids'[|ids'| - 1] == NewId(Ids(c.vec, h))
            && exists i, j :: 0 <= i < j < |ids'| && ids'[i] > ids'[j]
  {
    var n := NewId(Ids(c.vec, h));
    var ids' := Ids(c.vec + [h.setId(item, n)], h);
    var k :| 0 <= k < |c.vec| && h.getId(c.vec[k]) > n;
    assert ids'[k] == h.getId(c.vec[k]);
    assert ids'[|c.vec|] == n;
  }

  // ---------------------------------------------------------------------
  // remove (container.rs:30-32): `retain` of the elements with another id
  // ---------------------------------------------------------------------

  /** The elements whose id differs from `id`, in their original order. */
  function Retained<T(!new)>(s: seq<T>, id: nat, h: HasId<T>): (r: seq<T>)
    ensures |r| <= |s|
    ensures forall x :: x in r ==> x in s && h.getId(x) != id
    ensures forall x :: x in s && h.getId(x) != id ==> x in r
  {
    if s == [] then []
    else
      var init := Retained(s[..|s| - 1], id, h);
      assert s == s[..|s| - 1] + [s[|s| - 1]];
      if h.getId(s[|s| - 1]) != id then init + [s[|s| - 1]] else init
  }

  /** Filtering commutes with concatenation, so the survivors keep their relative order. */
  lemma {:induction false} RetainedConcat<T(!new)>(a: seq<T>, b: seq<T>, id: nat, h: HasId<T>)
    ensures Retained(a + b, id, h) == Retained(a, id, h) + Retained(b, id, h)
    decreases |b|
  {
    if b == [] {
      assert a + b == a;
    } else {
      var b0 := b[..|b| - 1];
      assert (a + b)[..|a + b| - 1] == a + b0;
      RetainedConcat(a, b0, id, h);
    }
  }

  /** Removing an id no element carries changes nothing. */
  lemma {:induction false} RetainedAbsent<T(!new)>(s: seq<T>, id: nat, h: HasId<T>)
    requires id !in Ids(s, h)
    ensures Retained(s, id, h) == s
  {
    if s != [] {
      var init := s[..|s| - 1];
      assert Ids(init, h) == Ids(s, h)[..|s| - 1];
      assert Ids(s, h)[|s| - 1] == h.getId(s[|s| - 1]);
      RetainedAbsent(init, id, h);
      assert s == init + [s[|s| - 1]];
    }
  }

  /** Removing keeps the ids pairwise distinct. */
  lemma {:induction false} RetainedKeepsDistinct<T(!new)>(s: seq<T>, id: nat, h: HasId<T>)
    requires DistinctIds(Ids(s, h))
    ensures DistinctIds(Ids(Retained(s, id, h), h))
  {
    if s != [] {
      var init := s[..|s| - 1];
      var last := s[|s| - 1];
      assert Ids(init, h) == Ids(s, h)[..|s| - 1];
      RetainedKeepsDistinct(init, id, h);
      if h.getId(last) != id {
        var r0 := Retained(init, id, h);
        var ids := Ids(r0 + [last], h);
        forall i, j | 0 <= i < j < |ids| ensures ids[i] != ids[j] {
          if j == |r0| {
            assert r0[i] in r0;
            var k :| 0 <= k < |init| && init[k] == r0[i];
            assert Ids(s, h)[k] == h.getId(r0[i]);
            assert Ids(s, h)[|s| - 1] == h.getId(last);
          } else {
            assert ids[i] == Ids(r0, h)[i] && ids[j] == Ids(r0, h)[j];
          }
        }
      }
    }
  }

  /** After `remove(id)`, the next `push` reuses `id` when it is the smallest gap. */
  lemma RemoveThenPushReuses<T(!new)>(s: seq<T>, id: nat, h: HasId<T>)
    requires forall j :: 0 <= j < id ==> j in Ids(s, h)
    ensures NewId(Ids(Retained(s, id, h), h)) == id
  {
    var r := Retained(s, id, h);
    var ids := Ids(r, h);
    forall j | 0 <= j < id ensures j in ids {
      assert j in Ids(s, h);
      var k :| 0 <= k < |s| && Ids(s, h)[k] == j;
      assert s[k] in r;
      var m :| 0 <= m < |r| && r[m] == s[k];
      assert ids[m] == j;
    }
    forall m | 0 <= m < |r| ensures ids[m] != id {
      assert r[m] in r;
    }
    SmallestUnusedUnique(ids, id, NewId(ids));
  }

  /** No element carrying the removed id is left. */
  lemma RetainedRemoves<T(!new)>(s: seq<T>, id: nat, h: HasId<T>)
    ensures id !in Ids(Retained(s, id, h), h)
  {
    var r := Retained(s, id, h);
    assert forall k :: 0 <= k < |r| ==> r[k] in r;
  }

  /** `remove`: keep, in order, every element whose id is not `id`. */
  method Remove<T(!new)>(c: UidContainer<T>, id: nat, h: HasId<T>) returns (c': UidContainer<T>)
    ensures c'.vec == Retained(c.vec, id, h)
    ensures id !in Ids(c'.vec, h)
  {
    var kept: seq<T> := [];
    var i := 0;
    while i < |c.vec|
      invariant 0 <= i <= |c.vec|
      invariant kept == Retained(c.vec[..i], id, h)
    {
      assert c.vec[..i + 1][..i] == c.vec[..i];
      if h.getId(c.vec[i]) != id {
        kept := kept + [c.vec[i]];
      }
      i := i + 1;
    }
    assert c.vec[..|c.vec|] == c.vec;
    c' := UidContainer(kept);
    RetainedRemoves(c.vec, id, h);
  }

  // ---------------------------------------------------------------------
  // Lookup by id: `get`, `get_mut` (used at tournament_core.rs:68,84,97)
  // ---------------------------------------------------------------------

  /** Position of the first key equal to `k`. */
  function FindIndex<K(==)>(keys: seq<K>, k: K): (r: Option<nat>)
    ensures r.Some? ==> r.value < |keys| && keys[r.value] == k
    ensures r.Some? ==> forall j :: 0 <= j < r.value ==> keys[j] != k
    ensures r.None? <==> k !in keys
  {
    if keys == [] then None
    else if keys[0] == k then Some(0)
    else
      match FindIndex(keys[1..], k)
      case None => None
      case Some(j) => Some(j + 1)
  }

  /** `get_mut`: the position of the first element carrying `id`. */
  function Find<T(!new)>(s: seq<T>, id: nat, h: HasId<T>): (r: Option<nat>)
    ensures r.Some? ==> r.value < |s| && h.getId(s[r.value]) == id
    ensures r.Some? ==> forall j :: 0 <= j < r.value ==> h.getId(s[j]) != id
    ensures r.None? ==> forall j :: 0 <= j < |s| ==> h.getId(s[j]) != id
  {
    var ids := Ids(s, h);
    assert forall j :: 0 <= j < |s| ==> ids[j] == h.getId(s[j]);
    FindIndex(ids, id)
  }

  /** `Find` looks only at the ids: sequences with the same ids find every id at the same place. */
  lemma FindSameIds<T(!new)>(s: seq<T>, s': seq<T>, id: nat, h: HasId<T>)
    requires |s| == |s'| && forall k :: 0 <= k < |s| ==> h.getId(s[k]) == h.getId(s'[k])
    ensures Find(s, id, h) == Find(s', id, h)
  {
    assert Ids(s, h) == Ids(s', h);
  }

  /** `Find` lands on the first element carrying the id, whichever one that is. */
  lemma FindIsFirst<T(!new)>(s: seq<T>, id: nat, h: HasId<T>, i: nat)
    requires i < |s| && h.getId(s[i]) == id
    requires forall j :: 0 <= j < i ==> h.getId(s[j]) != id
    ensures Find(s, id, h) == Some(i)
  {
  }

  /** Appending an element does not move the first element carrying an id already present. */
  lemma FindAppend<T(!new)>(s: seq<T>, x: T, id: nat, h: HasId<T>)
    requires Find(s, id, h).Some?
    ensures Find(s + [x], id, h) == Find(s, id, h)
  {
    var i := Find(s, id, h).value;
    assert (s + [x])[i] == s[i];
    assert forall j :: 0 <= j < |s| ==> (s + [x])[j] == s[j];
  }

  /** `get`: the first element carrying `id`, or None. */
  function Get<T(!new)>(c: UidContainer<T>, id: nat, h: HasId<T>): (r: Option<T>)
    ensures r.Some? ==> r.value in c.vec && h.getId(r.value) == id
    ensures r.Some? ==> exists k :: 0 <= k < |c.vec| && c.vec[k] == r.value &&
                                    forall j :: 0 <= j < k ==> h.getId(c.vec[j]) != id
    ensures r.None? <==> id !in Ids(c.vec, h)
  {
    match Find(c.vec, id, h)
    case None => None
    case Some(i) => Some(c.vec[i])
  }

  /** `insert`: append without reassigning the id (graph reconstruction). */
  function Insert<T(!new)>(c: UidContainer<T>, item: T): UidContainer<T>
  {
    UidContainer(c.vec + [item])
  }
}
