/** The slot assignments as values: which provider ids are assigned to
    which slot, and the updates the roster screen makes to them. */
module Assignments {
  import opened Options
  import opened Schedule

  /** Slot key to the ids assigned to that slot, in assignment order. */
  type ShiftAssignments = map<Slot, seq<int>>

  /** `ids` with every copy of `id` dropped, the rest in order. */
  function Without(ids: seq<int>, id: int): (r: seq<int>)
    ensures |r| <= |ids|
  {
    if ids == [] then []
    else (if ids[0] == id then [] else [ids[0]]) + Without(ids[1..], id)
  }

  /** Filtering removes every copy of `id` and keeps every other id as
      often as it was there. */
  lemma {:induction false} WithoutCounts(ids: seq<int>, id: int)
    ensures multiset(Without(ids, id))[id] == 0
    ensures forall x :: x != id ==> multiset(Without(ids, id))[x] == multiset(ids)[x]
    ensures forall x :: x in Without(ids, id) <==> x in ids && x != id
  {
    if ids != [] {
      WithoutCounts(ids[1..], id);
      assert ids == [ids[0]] + ids[1..];
    }
  }

  /** Filtering works piece by piece, so the ids it keeps stay in their
      relative order. */
  lemma {:induction false} WithoutAppend(a: seq<int>, b: seq<int>, id: int)
    ensures Without(a + b, id) == Without(a, id) + Without(b, id)
  {
    if a == [] {
      assert a + b == b;
    } else {
      var head := if a[0] == id then [] else [a[0]];
      var ab := a + b;
      assert ab[1..] == a[1..] + b;
      assert Without(ab, id) == head + Without(a[1..] + b, id) by {
        assert ab[0] == a[0];
      }
      WithoutAppend(a[1..], b, id);
      assert head + (Without(a[1..], id) + Without(b, id))
             == (head + Without(a[1..], id)) + Without(b, id);
    }
  }

  /** Filtering twice is filtering once. */
  lemma {:induction false} WithoutIdempotent(ids: seq<int>, id: int)
    ensures Without(Without(ids, id), id) == Without(ids, id)
  {
    if ids != [] {
      WithoutIdempotent(ids[1..], id);
      var rest := Without(ids[1..], id);
      if ids[0] != id {
        assert Without(ids, id) == [ids[0]] + rest;
        assert ([ids[0]] + rest)[0] == ids[0] && ([ids[0]] + rest)[1..] == rest;
        assert Without([ids[0]] + rest, id) == [ids[0]] + Without(rest, id);
      } else {
        assert Without(ids, id) == [] + rest == rest;
      }
    }
  }

  /** The ids of a slot; a slot with no entry has none. */
  function SlotIds(asg: ShiftAssignments, shift: Slot): seq<int> {
    if shift in asg then asg[shift] else []
  }

  /** Every slot with `id` filtered out. */
  function Evicted(asg: ShiftAssignments, id: int): (r: ShiftAssignments)
    ensures r.Keys == asg.Keys
  {
    map s | s in asg :: Without(asg[s], id)
  }

  /** `handleShiftProviderChange(shift, providerId)`: the selected id (None
      stands for the NaN of the empty option) is filtered out of every slot;
      a truthy id is then appended to `shift`, whose list is created if
      missing. */
  function Reassigned(asg: ShiftAssignments, shift: Slot, providerId: Option<int>): ShiftAssignments {
    match providerId
    case None => asg
    case Some(id) =>
      var evicted := Evicted(asg, id);
      if id != 0 then evicted[shift := SlotIds(evicted, shift) + [id]] else evicted
  }

  /** `removeProviderFromShift(shift, id)`. */
  function RemovedFromShift(asg: ShiftAssignments, shift: Slot, id: int): (r: ShiftAssignments)
    ensures r.Keys == asg.Keys
  {
    if shift in asg then asg[shift := Without(asg[shift], id)] else asg
  }

  /** No slot lists an id twice. */
  ghost predicate NoDuplicates(ids: seq<int>) {
    forall x :: multiset(ids)[x] <= 1
  }

  /** Each id appears in at most one slot, at most once. */
  ghost predicate UniquelyAssigned(asg: ShiftAssignments) {
    (forall s :: s in asg ==> NoDuplicates(asg[s])) &&
    (forall s1, s2, x :: s1 in asg && s2 in asg && x in asg[s1] && x in asg[s2] ==> s1 == s2)
  }

  /** After the provider is deleted from every slot it is in none, every
      other id keeps its slot, its place and its count, and no slot is
      added or dropped. */
  lemma EvictedRemovesOnlyId(asg: ShiftAssignments, id: int)
    ensures Evicted(asg, id).Keys == asg.Keys
    ensures forall s :: s in asg ==> id !in Evicted(asg, id)[s]
    ensures forall s, x :: s in asg && x != id ==>
              multiset(Evicted(asg, id)[s])[x] == multiset(asg[s])[x]
    ensures UniquelyAssigned(asg) ==> UniquelyAssigned(Evicted(asg, id))
  {
    forall s | s in asg {
      WithoutCounts(asg[s], id);
    }
  }

  /** Selecting a provider for a slot leaves it in that slot only, exactly
      once and last. */
  lemma ReassignedPlacesOnce(asg: ShiftAssignments, shift: Slot, id: int)
    requires id != 0
    ensures var r := Reassigned(asg, shift, Some(id));
            shift in r && r.Keys == asg.Keys + {shift}
            && |r[shift]| > 0 && r[shift][|r[shift]| - 1] == id
            && multiset(r[shift])[id] == 1
            && forall s :: s in r && s != shift ==> id !in r[s]
  {
    EvictedRemovesOnlyId(asg, id);
    var evicted := Evicted(asg, id);
    if shift in asg {
      WithoutCounts(asg[shift], id);
    }
    assert multiset(SlotIds(evicted, shift))[id] == 0;
  }

  /** Apart from the selected id, every slot keeps its ids in the same
      order; the empty option changes nothing. */
  lemma ReassignedKeepsOthers(asg: ShiftAssignments, shift: Slot, providerId: Option<int>)
    ensures providerId.None? ==> Reassigned(asg, shift, providerId) == asg
    ensures providerId.Some? ==>
              forall s :: s in asg ==>
                Without(Reassigned(asg, shift, providerId)[s], providerId.value)
                == Without(asg[s], providerId.value)
  {
    if providerId.Some? {
      var id := providerId.value;
      var r := Reassigned(asg, shift, providerId);
      forall s | s in asg
        ensures Without(r[s], id) == Without(asg[s], id)
      {
        WithoutIdempotent(asg[s], id);
        if s == shift && id != 0 {
          WithoutAppend(Without(asg[s], id), [id], id);
          assert Without([id], id) == [];
          assert Without(asg[s], id) + [] == Without(asg[s], id);
        }
      }
    }
  }

  /** Selecting a provider keeps every id in at most one slot. */
  lemma ReassignedKeepsUnique(asg: ShiftAssignments, shift: Slot, providerId: Option<int>)
    requires UniquelyAssigned(asg)
    ensures UniquelyAssigned(Reassigned(asg, shift, providerId))
  {
    if providerId.Some? {
      var id := providerId.value;
      EvictedRemovesOnlyId(asg, id);
      if id != 0 {
        AppendAbsentKeepsUnique(Evicted(asg, id), shift, id);
      }
    }
  }

  /** Appending an id that no slot holds keeps every id in at most one slot. */
  lemma AppendAbsentKeepsUnique(asg: ShiftAssignments, shift: Slot, id: int)
    requires UniquelyAssigned(asg)
    requires forall s :: s in asg ==> id !in asg[s]
    ensures UniquelyAssigned(asg[shift := SlotIds(asg, shift) + [id]])
  {
    var before := SlotIds(asg, shift);
    var r := asg[shift := before + [id]];
    assert id !in before;
    assert NoDuplicates(before) by {
      if shift in asg { assert NoDuplicates(asg[shift]); }
    }
    forall s | s in r ensures NoDuplicates(r[s]) {
      if s == shift {
        assert multiset(r[s]) == multiset(before) + multiset{id};
      } else {
        assert NoDuplicates(asg[s]);
      }
    }
    forall s1, s2, x | s1 in r && s2 in r && x in r[s1] && x in r[s2] ensures s1 == s2 {
      if x != id {
        assert x in SlotIds(asg, s1) && x in SlotIds(asg, s2);
      }
    }
  }

  /** Removing an id from one slot touches no other slot. */
  lemma RemovedFromShiftOnlyThatSlot(asg: ShiftAssignments, shift: Slot, id: int)
    ensures RemovedFromShift(asg, shift, id).Keys == asg.Keys
    ensures forall s :: s in asg && s != shift ==> RemovedFromShift(asg, shift, id)[s] == asg[s]
    ensures shift in asg ==> id !in RemovedFromShift(asg, shift, id)[shift]
  {
    if shift in asg {
      WithoutCounts(asg[shift], id);
    }
  }

  /** Removing an id from one slot keeps every id in at most one slot. */
  lemma RemovedFromShiftKeepsUnique(asg: ShiftAssignments, shift: Slot, id: int)
    requires UniquelyAssigned(asg)
    ensures UniquelyAssigned(RemovedFromShift(asg, shift, id))
  {
    if shift in asg {
      WithoutCounts(asg[shift], id);
      var r := RemovedFromShift(asg, shift, id);
      forall s | s in r ensures multiset(r[s]) <= multiset(asg[s]) {
        if s == shift {
          assert forall x :: multiset(r[s])[x] <= multiset(asg[s])[x];
        }
      }
      ShrunkKeepsUnique(asg, r);
    }
  }

  /** Dropping ids from slots never breaks uniqueness. */
  lemma ShrunkKeepsUnique(asg: ShiftAssignments, r: ShiftAssignments)
    requires UniquelyAssigned(asg)
    requires r.Keys <= asg.Keys
    requires forall s :: s in r ==> multiset(r[s]) <= multiset(asg[s])
    ensures UniquelyAssigned(r)
  {
    forall s | s in r ensures NoDuplicates(r[s]) {
      assert NoDuplicates(asg[s]);
      forall x ensures multiset(r[s])[x] <= 1 {
        assert multiset(r[s])[x] <= multiset(asg[s])[x];
      }
    }
    forall s1, s2, x | s1 in r && s2 in r && x in r[s1] && x in r[s2] ensures s1 == s2 {
      assert x in multiset(r[s1]) && x in multiset(r[s2]);
      assert x in asg[s1] && x in asg[s2];
    }
  }
}
