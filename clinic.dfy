/** The roster screen's state: the provider list and the slot assignments,
    and the edits the screen makes to them in place. */
module Clinic {
  import opened Options
  import opened Text
  import opened Schedule
  import opened Providers
  import opened Assignments

  /** A locked provider has a name and a positive rate. */
  ghost predicate LocksValid(ps: seq<Provider>) {
    forall i :: 0 <= i < |ps| && ps[i].submitted ==> Trim(ps[i].name) != [] && ps[i].patientsPerHour > 0.0
  }

  lemma WithoutProviderKeepsLocks(ps: seq<Provider>, id: int)
    requires LocksValid(ps)
    ensures LocksValid(WithoutProvider(ps, id))
  {
    var r := WithoutProvider(ps, id);
    forall i | 0 <= i < |r| && r[i].submitted
      ensures Trim(r[i].name) != [] && r[i].patientsPerHour > 0.0
    {
      assert r[i] in ps;
    }
  }

  class Roster {
    var providers: seq<Provider>
    var shiftAssignments: ShiftAssignments

    /** Every slot has a list, and each provider id is in at most one slot,
        at most once. */
    ghost predicate Valid()
      reads this
    {
      (forall s: Slot :: s in shiftAssignments) && UniquelyAssigned(shiftAssignments)
    }

    /** The state after start-up with nothing saved: no providers yet, and
        an empty list for each of the six slots. */
    constructor ()
      ensures Valid()
      ensures providers == []
      ensures forall s: Slot :: shiftAssignments[s] == []
    {
      providers := [];
      shiftAssignments := map[Opening := [], Mid := [], Close := [],
                              Thursday1 := [], Thursday2 := [], Thursday3 := []];
      new;
      forall s: Slot ensures s in shiftAssignments && shiftAssignments[s] == [] {
        match s
        case Opening =>
        case Mid =>
        case Close =>
        case Thursday1 =>
        case Thursday2 =>
        case Thursday3 =>
      }
    }

    /** The provider part of `loadData`: start from the built-in providers,
        merge the saved ones in, and drop any provider named "test". */
    method LoadProviders(saved: seq<Provider>)
      modifies this
      ensures providers == Merged(saved)
      ensures forall p :: p in providers ==> !IsTestName(p.name)
      ensures shiftAssignments == old(shiftAssignments)
    {
      providers := BaseProviders;
      var k := 0;
      assert MergeSaved(saved[..k]) == BaseProviders by {
        assert saved[..k] == [];
      }
      while k < |saved|
        invariant 0 <= k <= |saved|
        invariant providers == MergeSaved(saved[..k])
        invariant shiftAssignments == old(shiftAssignments)
      {
        MergeInto(saved[k]);
        MergeSavedStep(saved, k);
        k := k + 1;
      }
      assert saved[..k] == saved;
      providers := WithoutTestNames(providers);
      MergedHasNoTestNames(saved);
    }

    /** The `forEach` callback of `loadData`: a "test" provider is skipped,
        a built-in id overwrites that built-in entry (still marked built-in),
        any other provider is appended. */
    method MergeInto(provider: Provider)
      modifies this
      ensures providers == MergeOne(old(providers), provider)
      ensures shiftAssignments == old(shiftAssignments)
    {
      if IsTestName(provider.name) {
        return;
      }
      if provider.id in BaseProviderIds {
        var baseIndex := FindIndex(providers, provider.id);
        if baseIndex.Some? {
          providers := providers[baseIndex.value := provider.(isBase := true)];
        }
      } else {
        providers := providers + [provider];
      }
    }

    /** The slot part of `deleteProvider(id)`: `id` is filtered out of each
        of the six slots. */
    method EvictEverywhere(id: int)
      requires forall s: Slot :: s in shiftAssignments
      modifies this
      ensures shiftAssignments == Evicted(old(shiftAssignments), id)
      ensures providers == old(providers)
    {
      // the source guards the three Thursday slots by presence; Valid()
      // keeps every slot present, so the guards always pass
      shiftAssignments := shiftAssignments[Opening := Without(shiftAssignments[Opening], id)];
      shiftAssignments := shiftAssignments[Mid := Without(shiftAssignments[Mid], id)];
      shiftAssignments := shiftAssignments[Close := Without(shiftAssignments[Close], id)];
      shiftAssignments := shiftAssignments[Thursday1 := Without(shiftAssignments[Thursday1], id)];
      shiftAssignments := shiftAssignments[Thursday2 := Without(shiftAssignments[Thursday2], id)];
      shiftAssignments := shiftAssignments[Thursday3 := Without(shiftAssignments[Thursday3], id)];
      ghost var a0 := old(shiftAssignments);
      assert shiftAssignments.Keys == a0.Keys;
      assert shiftAssignments[Opening] == Without(a0[Opening], id);
      assert shiftAssignments[Mid] == Without(a0[Mid], id);
      assert shiftAssignments[Close] == Without(a0[Close], id);
      assert shiftAssignments[Thursday1] == Without(a0[Thursday1], id);
      assert shiftAssignments[Thursday2] == Without(a0[Thursday2], id);
      assert shiftAssignments[Thursday3] == Without(a0[Thursday3], id);
      forall s: Slot ensures shiftAssignments[s] == Without(a0[s], id) {
        match s
        case Opening =>
        case Mid =>
        case Close =>
        case Thursday1 =>
        case Thursday2 =>
        case Thursday3 =>
      }
    }

    /** `deleteProvider(id)`: once the user confirms, the provider leaves
        the roster and every slot; a declined confirmation changes nothing. */
    method DeleteProvider(id: int, confirmed: bool)
      requires Valid()
      modifies this
      ensures Valid()
      ensures !confirmed ==> providers == old(providers) && shiftAssignments == old(shiftAssignments)
      ensures confirmed ==> providers == WithoutProvider(old(providers), id)
      ensures confirmed ==> shiftAssignments == Evicted(old(shiftAssignments), id)
      ensures confirmed ==> forall p :: p in providers ==> p.id != id
      ensures confirmed ==> forall s :: s in shiftAssignments ==> id !in shiftAssignments[s]
      ensures LocksValid(old(providers)) ==> LocksValid(providers)
    {
      if !confirmed {
        return;
      }
      providers := WithoutProvider(providers, id);
      EvictEverywhere(id);
      EvictedRemovesOnlyId(old(shiftAssignments), id);
      if LocksValid(old(providers)) {
        WithoutProviderKeepsLocks(old(providers), id);
      }
    }

    /** `updateProviderName(id, value)`: an unlocked provider takes the
        trimmed name; a locked or unknown one is left alone. */
    method UpdateProviderName(id: int, value: string)
      modifies this
      ensures var found := FindIndex(old(providers), id);
              if found.Some? && !old(providers)[found.value].submitted
              then providers == old(providers)[found.value := old(providers)[found.value].(name := Trim(value))]
                   && IsTrimmed(providers[found.value].name)
              else providers == old(providers)
      ensures shiftAssignments == old(shiftAssignments)
      ensures LocksValid(old(providers)) ==> LocksValid(providers)
    {
      var found := FindIndex(providers, id);
      if found.Some? && !providers[found.value].submitted {
        providers := providers[found.value := providers[found.value].(name := Trim(value))];
        TrimFacts(value);
      }
    }

    /** `updateProviderRate(id, value)`, with `value` already parsed (an
        unparsable entry arrives as 0): an unlocked provider takes the rate;
        a locked or unknown one is left alone. */
    method UpdateProviderRate(id: int, rate: real)
      modifies this
      ensures var found := FindIndex(old(providers), id);
              if found.Some? && !old(providers)[found.value].submitted
              then providers == old(providers)[found.value := old(providers)[found.value].(patientsPerHour := rate)]
              else providers == old(providers)
      ensures shiftAssignments == old(shiftAssignments)
      ensures LocksValid(old(providers)) ==> LocksValid(providers)
    {
      var found := FindIndex(providers, id);
      if found.Some? && !providers[found.value].submitted {
        providers := providers[found.value := providers[found.value].(patientsPerHour := rate)];
      }
    }

    /** `submitProvider(id)`: locks the provider when its trimmed name is not
        empty and its rate is positive; otherwise nothing changes. */
    method SubmitProvider(id: int)
      modifies this
      ensures var found := FindIndex(old(providers), id);
              if found.Some? && Trim(old(providers)[found.value].name) != []
                 && old(providers)[found.value].patientsPerHour > 0.0
              then providers == old(providers)[found.value := old(providers)[found.value].(submitted := true)]
              else providers == old(providers)
      ensures shiftAssignments == old(shiftAssignments)
      ensures LocksValid(old(providers)) ==> LocksValid(providers)
    {
      var found := FindIndex(providers, id);
      if found.Some? {
        var provider := providers[found.value];
        var name := Trim(provider.name);
        var rate := provider.patientsPerHour;
        if name == [] || rate <= 0.0 {
          return;
        }
        providers := providers[found.value := provider.(submitted := true)];
      }
    }

    /** `editProvider(id)`: unlocks the provider. */
    method EditProvider(id: int)
      modifies this
      ensures var found := FindIndex(old(providers), id);
              if found.Some?
              then providers == old(providers)[found.value := old(providers)[found.value].(submitted := false)]
              else providers == old(providers)
      ensures shiftAssignments == old(shiftAssignments)
      ensures LocksValid(old(providers)) ==> LocksValid(providers)
    {
      var found := FindIndex(providers, id);
      if found.Some? {
        providers := providers[found.value := providers[found.value].(submitted := false)];
      }
    }

    /** `handleShiftProviderChange(shift, providerId)`: evicts the provider
        from every slot, then appends it to `shift`. `None` is the NaN the
        empty option yields; filtering NaN out keeps every id. */
    method HandleShiftProviderChange(shift: Slot, providerId: Option<int>)
      requires Valid()
      modifies this
      ensures Valid()
      ensures shiftAssignments == Reassigned(old(shiftAssignments), shift, providerId)
      ensures providers == old(providers)
    {
      var remaining := shiftAssignments.Keys;
      while remaining != {}
        invariant remaining <= shiftAssignments.Keys == old(shiftAssignments).Keys
        invariant forall s :: s in shiftAssignments ==>
                    shiftAssignments[s] == if s !in remaining && providerId.Some?
                                           then Without(old(shiftAssignments)[s], providerId.value)
                                           else old(shiftAssignments)[s]
        invariant providers == old(providers)
        decreases remaining
      {
        var key :| key in remaining;
        if providerId.Some? {
          shiftAssignments := shiftAssignments[key := Without(shiftAssignments[key], providerId.value)];
        }
        remaining := remaining - {key};
      }
      assert providerId.None? ==> shiftAssignments == old(shiftAssignments);
      assert providerId.Some? ==> shiftAssignments == Evicted(old(shiftAssignments), providerId.value);
      if providerId.Some? && providerId.value != 0 {
        shiftAssignments := shiftAssignments[shift := shiftAssignments[shift] + [providerId.value]];
      }
      assert shiftAssignments == Reassigned(old(shiftAssignments), shift, providerId);
      assert forall s: Slot :: s in shiftAssignments by {
        if providerId.Some? {
          EvictedRemovesOnlyId(old(shiftAssignments), providerId.value);
        }
      }
      ReassignedKeepsUnique(old(shiftAssignments), shift, providerId);
    }

    /** `removeProviderFromShift(shift, id)`. */
    method RemoveProviderFromShift(shift: Slot, id: int)
      requires Valid()
      modifies this
      ensures Valid()
      ensures shiftAssignments == RemovedFromShift(old(shiftAssignments), shift, id)
      ensures providers == old(providers)
    {
      if shift in shiftAssignments {
        shiftAssignments := shiftAssignments[shift := Without(shiftAssignments[shift], id)];
      }
      RemovedFromShiftOnlyThatSlot(old(shiftAssignments), shift, id);
      RemovedFromShiftKeepsUnique(old(shiftAssignments), shift, id);
    }
  }
}
