/** The remaining-capacity projection: how many more patients the clinic
    can take before it closes, from the clock, the day type, the roster,
    the slot assignments and the number of patients already waiting. */
module Capacity {
  import opened Options
  import opened Schedule
  import opened Providers
  import opened Assignments

  /** Patients a provider is credited with for the final hour of a shift,
      whatever their rate. */
  const LastHourPatients: real := 2.0

  /** Patients a provider can still see with `remainingHours` left: none
      once the shift is over, the fixed last-hour amount for any part of a
      final hour, and the rate for every hour before the last. */
  function RemainingPatients(provider: Provider, remainingHours: real): (r: real)
    ensures remainingHours <= 0.0 ==> r == 0.0
    ensures 0.0 < remainingHours < 1.0 ==> r == LastHourPatients
    ensures provider.patientsPerHour >= 0.0 && remainingHours > 0.0 ==> r >= LastHourPatients
  {
    if remainingHours <= 0.0 then 0.0
    else if remainingHours < 1.0 then LastHourPatients
    else
      var hoursBeforeLast := remainingHours - 1.0;
      var patientsFromFullHours := hoursBeforeLast * provider.patientsPerHour;
      var patientsFromLastHour := LastHourPatients;
      patientsFromFullHours + patientsFromLastHour
  }

  /** Beyond the last hour every further hour is billed at the provider's
      rate: between two amounts of at least one hour the difference is the
      extra hours times the rate. */
  lemma RemainingPatientsBilledAtRate(provider: Provider, h1: real, h2: real)
    requires 1.0 <= h1 <= h2
    ensures RemainingPatients(provider, h2) - RemainingPatients(provider, h1)
            == (h2 - h1) * provider.patientsPerHour
    ensures RemainingPatients(provider, 1.0) == LastHourPatients
  {
  }

  /** More remaining time never means fewer patients, for a rate that is
      not negative. */
  lemma RemainingPatientsMonotone(provider: Provider, h1: real, h2: real)
    requires provider.patientsPerHour >= 0.0
    requires h1 <= h2
    ensures RemainingPatients(provider, h1) <= RemainingPatients(provider, h2)
  {
    if h1 >= 1.0 {
      RemainingPatientsBilledAtRate(provider, h1, h2);
      assert (h2 - h1) * provider.patientsPerHour >= 0.0;
    }
  }

  // ---------------------------------------------------------------- tiers

  /** The colour band of the final number. */
  datatype Tier = Negative | Red | Yellow | Green

  /** The band of a remaining capacity: below zero, 0 to 1, 2 to 4, 5 and up. */
  function TierOf(remainingCapacity: int): (t: Tier)
    ensures t == Negative <==> remainingCapacity < 0
    ensures t == Red <==> 0 <= remainingCapacity <= 1
    ensures t == Yellow <==> 2 <= remainingCapacity <= 4
    ensures t == Green <==> 5 <= remainingCapacity
  {
    if remainingCapacity < 0 then Negative
    else if remainingCapacity <= 1 then Red
    else if remainingCapacity <= 4 then Yellow
    else Green
  }

  // ---------------------------------------------------------------- outcome

  /** One breakdown line: provider, shift label, hours left, patients left. */
  datatype Entry = Entry(provider: string, shift: string, remainingHours: real, remainingPatients: real)

  /** What the calculator shows. */
  datatype Outcome =
    | Closed
    | NoProviders(value: int)
    | Computed(value: int, tier: Tier, breakdown: seq<Entry>)

  /** The providers assigned to a slot that still exist in the roster. */
  function AssignedProviders(roster: seq<Provider>, assignments: map<Slot, seq<int>>, key: Slot): seq<Provider> {
    Resolve(roster, SlotIds(assignments, key))
  }

  /** Hours left in a shift at the given clock. */
  function ShiftHours(hour: int, minute: int, shift: Shift): real {
    RemainingHours(hour, minute, shift.window.start, shift.window.end)
  }

  /** The patients `ps` can still see, each with `hours` left, summed
      without rounding. */
  function PatientsSum(hours: real, ps: seq<Provider>): real
    decreases |ps|
  {
    if ps == [] then 0.0
    else PatientsSum(hours, ps[..|ps| - 1]) + RemainingPatients(ps[|ps| - 1], hours)
  }

  /** The breakdown lines of `ps` in one shift: one per provider with
      capacity left, in order. */
  function ProviderEntries(shiftName: string, hours: real, ps: seq<Provider>): seq<Entry>
    decreases |ps|
  {
    if ps == [] then []
    else
      var p := ps[|ps| - 1];
      var patients := RemainingPatients(p, hours);
      ProviderEntries(shiftName, hours, ps[..|ps| - 1]) +
      (if patients > 0.0 then [Entry(p.name, shiftName, hours, patients)] else [])
  }

  /** Total unrounded capacity of the assigned providers over `shifts`. */
  function CapacityOf(hour: int, minute: int, shifts: seq<Shift>, roster: seq<Provider>,
                      assignments: map<Slot, seq<int>>): real
    decreases |shifts|
  {
    if shifts == [] then 0.0
    else
      var shift := shifts[|shifts| - 1];
      CapacityOf(hour, minute, shifts[..|shifts| - 1], roster, assignments) +
      PatientsSum(ShiftHours(hour, minute, shift), AssignedProviders(roster, assignments, shift.key))
  }

  /** The breakdown over `shifts`, shift by shift. */
  function BreakdownOf(hour: int, minute: int, shifts: seq<Shift>, roster: seq<Provider>,
                       assignments: map<Slot, seq<int>>): seq<Entry>
    decreases |shifts|
  {
    if shifts == [] then []
    else
      var shift := shifts[|shifts| - 1];
      BreakdownOf(hour, minute, shifts[..|shifts| - 1], roster, assignments) +
      ProviderEntries(shift.name, ShiftHours(hour, minute, shift),
                      AssignedProviders(roster, assignments, shift.key))
  }

  /** One shift's breakdown has exactly one kind of line: for a provider of
      `ps` with capacity left, its name, the shift, the hours and its
      remaining patients. Every such provider gets a line, and there are
      never more lines than providers. */
  lemma {:induction false} ProviderEntriesExact(shiftName: string, hours: real, ps: seq<Provider>)
    ensures |ProviderEntries(shiftName, hours, ps)| <= |ps|
    ensures forall e :: e in ProviderEntries(shiftName, hours, ps) <==>
              exists j :: 0 <= j < |ps| && RemainingPatients(ps[j], hours) > 0.0
                          && e == Entry(ps[j].name, shiftName, hours, RemainingPatients(ps[j], hours))
    decreases |ps|
  {
    if ps != [] {
      var init, p := ps[..|ps| - 1], ps[|ps| - 1];
      ProviderEntriesExact(shiftName, hours, init);
      var last := if RemainingPatients(p, hours) > 0.0
                  then [Entry(p.name, shiftName, hours, RemainingPatients(p, hours))] else [];
      assert ProviderEntries(shiftName, hours, ps) == ProviderEntries(shiftName, hours, init) + last;
      forall e ensures e in ProviderEntries(shiftName, hours, ps) <==>
                         exists j :: 0 <= j < |ps| && RemainingPatients(ps[j], hours) > 0.0
                                     && e == Entry(ps[j].name, shiftName, hours, RemainingPatients(ps[j], hours))
      {
        if e in ProviderEntries(shiftName, hours, init) {
          var j :| 0 <= j < |init| && RemainingPatients(init[j], hours) > 0.0
                   && e == Entry(init[j].name, shiftName, hours, RemainingPatients(init[j], hours));
          assert ps[j] == init[j];
        } else if e in last {
          assert ps[|ps| - 1] == p;
        } else {
          forall j | 0 <= j < |ps| && RemainingPatients(ps[j], hours) > 0.0
            ensures e != Entry(ps[j].name, shiftName, hours, RemainingPatients(ps[j], hours))
          {
            if j < |init| {
              assert ps[j] == init[j];
            }
          }
        }
      }
    }
  }

  /** The breakdown lines of a shift come provider by provider, in order:
      each provider adds its own line when it has capacity left and none
      otherwise. */
  lemma {:induction false} ProviderEntriesAppend(shiftName: string, hours: real, a: seq<Provider>, b: seq<Provider>)
    ensures ProviderEntries(shiftName, hours, a + b)
            == ProviderEntries(shiftName, hours, a) + ProviderEntries(shiftName, hours, b)
    ensures |a| == 1 ==>
              ProviderEntries(shiftName, hours, a)
              == if RemainingPatients(a[0], hours) > 0.0
                 then [Entry(a[0].name, shiftName, hours, RemainingPatients(a[0], hours))] else []
    decreases |b|
  {
    if |a| == 1 {
      assert a[..0] == [];
    }
    if b == [] {
      assert a + b == a;
    } else {
      var ab, binit := a + b, b[..|b| - 1];
      var p := b[|b| - 1];
      assert ab[..|ab| - 1] == a + binit && ab[|ab| - 1] == p;
      ProviderEntriesAppend(shiftName, hours, a, binit);
      var last := if RemainingPatients(p, hours) > 0.0
                  then [Entry(p.name, shiftName, hours, RemainingPatients(p, hours))] else [];
      var x, y := ProviderEntries(shiftName, hours, a), ProviderEntries(shiftName, hours, binit);
      assert ProviderEntries(shiftName, hours, ab) == (x + y) + last;
      assert ProviderEntries(shiftName, hours, b) == y + last;
      assert (x + y) + last == x + (y + last);
    }
  }

  /** `e` is a breakdown line of `shift`. */
  ghost predicate LineOf(hour: int, minute: int, shift: Shift, roster: seq<Provider>,
                         assignments: map<Slot, seq<int>>, e: Entry) {
    e in ProviderEntries(shift.name, ShiftHours(hour, minute, shift), AssignedProviders(roster, assignments, shift.key))
  }

  /** A line is in the breakdown exactly when it is a line of one of the
      shifts. */
  lemma {:induction false} BreakdownExact(hour: int, minute: int, shifts: seq<Shift>, roster: seq<Provider>,
                                          assignments: map<Slot, seq<int>>)
    ensures forall e :: e in BreakdownOf(hour, minute, shifts, roster, assignments) <==>
              exists i :: 0 <= i < |shifts| && LineOf(hour, minute, shifts[i], roster, assignments, e)
    decreases |shifts|
  {
    if shifts != [] {
      var init, shift := shifts[..|shifts| - 1], shifts[|shifts| - 1];
      BreakdownExact(hour, minute, init, roster, assignments);
      forall e ensures e in BreakdownOf(hour, minute, shifts, roster, assignments) <==>
                         exists i :: 0 <= i < |shifts| && LineOf(hour, minute, shifts[i], roster, assignments, e)
      {
        if e in BreakdownOf(hour, minute, init, roster, assignments) {
          var i :| 0 <= i < |init| && LineOf(hour, minute, init[i], roster, assignments, e);
          assert shifts[i] == init[i];
        } else if LineOf(hour, minute, shift, roster, assignments, e) {
          assert shifts[|shifts| - 1] == shift;
        } else {
          forall i | 0 <= i < |shifts| ensures !LineOf(hour, minute, shifts[i], roster, assignments, e) {
            if i < |init| {
              assert shifts[i] == init[i];
            }
          }
        }
      }
    }
  }

  /** Every line of the breakdown shows a provider with capacity left. */
  lemma BreakdownPositive(hour: int, minute: int, shifts: seq<Shift>, roster: seq<Provider>,
                          assignments: map<Slot, seq<int>>)
    ensures forall e :: e in BreakdownOf(hour, minute, shifts, roster, assignments) ==> e.remainingPatients > 0.0
  {
    BreakdownExact(hour, minute, shifts, roster, assignments);
    forall e | e in BreakdownOf(hour, minute, shifts, roster, assignments) ensures e.remainingPatients > 0.0 {
      var i :| 0 <= i < |shifts| && LineOf(hour, minute, shifts[i], roster, assignments, e);
      var ps := AssignedProviders(roster, assignments, shifts[i].key);
      var hours := ShiftHours(hour, minute, shifts[i]);
      ProviderEntriesExact(shifts[i].name, hours, ps);
      var j :| 0 <= j < |ps| && RemainingPatients(ps[j], hours) > 0.0
               && e == Entry(ps[j].name, shifts[i].name, hours, RemainingPatients(ps[j], hours));
    }
  }

  /** Some shift in `shifts` has at least one provider of the roster. */
  predicate AnyAssigned(shifts: seq<Shift>, roster: seq<Provider>, assignments: map<Slot, seq<int>>)
    decreases |shifts|
  {
    shifts != [] &&
    (AnyAssigned(shifts[..|shifts| - 1], roster, assignments) ||
     AssignedProviders(roster, assignments, shifts[|shifts| - 1].key) != [])
  }

  /** `AnyAssigned` holds exactly when some shift resolves to a provider. */
  lemma {:induction false} AnyAssignedIff(shifts: seq<Shift>, roster: seq<Provider>, assignments: map<Slot, seq<int>>)
    ensures AnyAssigned(shifts, roster, assignments) <==>
              exists i :: 0 <= i < |shifts| && AssignedProviders(roster, assignments, shifts[i].key) != []
    decreases |shifts|
  {
    if shifts != [] {
      var init := shifts[..|shifts| - 1];
      AnyAssignedIff(init, roster, assignments);
      if AnyAssigned(init, roster, assignments) {
        var i :| 0 <= i < |init| && AssignedProviders(roster, assignments, init[i].key) != [];
        assert shifts[i] == init[i];
      }
      if exists i :: 0 <= i < |shifts| && AssignedProviders(roster, assignments, shifts[i].key) != [] {
        var i :| 0 <= i < |shifts| && AssignedProviders(roster, assignments, shifts[i].key) != [];
        if i < |init| {
          assert init[i] == shifts[i];
        }
      }
    }
  }

  /** The outcome of the capacity calculation. */
  function RemainingCapacity(hour: int, minute: int, isThursday: bool, roster: seq<Provider>,
                             assignments: map<Slot, seq<int>>, patientsInLobby: int): (r: Outcome)
    ensures r == Closed <==> DecimalTime(hour, minute) >= LatestShiftEndTime(isThursday)
    ensures r.NoProviders? <==> DecimalTime(hour, minute) < LatestShiftEndTime(isThursday)
                                && !AnyAssigned(Shifts(isThursday), roster, assignments)
    ensures r.NoProviders? ==> r.value == 0 - patientsInLobby
    ensures r.Computed? ==>
              r.value == CapacityOf(hour, minute, Shifts(isThursday), roster, assignments).Floor - patientsInLobby
              && r.tier == TierOf(r.value)
              && r.breakdown == BreakdownOf(hour, minute, Shifts(isThursday), roster, assignments)
  {
    if DecimalTime(hour, minute) >= LatestShiftEndTime(isThursday) then Closed
    else
      var shifts := Shifts(isThursday);
      if !AnyAssigned(shifts, roster, assignments) then NoProviders(0 - patientsInLobby)
      else
        var value := CapacityOf(hour, minute, shifts, roster, assignments).Floor - patientsInLobby;
        Computed(value, TierOf(value), BreakdownOf(hour, minute, shifts, roster, assignments))
  }

  /** Ids left in the assignments after their provider was deleted are
      ignored: when no slot names a provider of the roster, an open clinic
      shows the no-providers value, minus the lobby. */
  lemma NoProvidersWhenAllStale(hour: int, minute: int, isThursday: bool, roster: seq<Provider>,
                                assignments: map<Slot, seq<int>>, patientsInLobby: int)
    requires DecimalTime(hour, minute) < LatestShiftEndTime(isThursday)
    requires forall s, k :: s in assignments && 0 <= k < |assignments[s]| ==>
               FindIndex(roster, assignments[s][k]).None?
    ensures RemainingCapacity(hour, minute, isThursday, roster, assignments, patientsInLobby)
            == NoProviders(0 - patientsInLobby)
  {
    var shifts := Shifts(isThursday);
    AnyAssignedIff(shifts, roster, assignments);
    forall i | 0 <= i < |shifts| ensures AssignedProviders(roster, assignments, shifts[i].key) == [] {
      var ids := SlotIds(assignments, shifts[i].key);
      ResolveFacts(roster, ids);
    }
  }

  /** The total is the sum of the unrounded per-provider amounts, rounded
      down once: two providers with 2.75 patients each give 5, where
      rounding each first would give 4. */
  lemma FloorAppliesToTheTotal()
    ensures var p1 := Provider(101, "A", 1.5, true, false);
            var p2 := Provider(102, "B", 1.5, true, false);
            var outcome := RemainingCapacity(17, 30, false, [p1, p2], map[Mid := [101, 102]], 0);
            RemainingPatients(p1, 1.5) == 2.75
            && RemainingPatients(p1, 1.5).Floor + RemainingPatients(p2, 1.5).Floor == 4
            && outcome == Computed(5, Green, [Entry("A", "Mid", 1.5, 2.75), Entry("B", "Mid", 1.5, 2.75)])
  {
    var p1 := Provider(101, "A", 1.5, true, false);
    var p2 := Provider(102, "B", 1.5, true, false);
    var roster := [p1, p2];
    var assignments := map[Mid := [101, 102]];
    var shifts := Shifts(false);
    assert FindIndex(roster, 101) == Some(0);
    assert FindIndex(roster, 102) == Some(1);
    assert Resolve(roster, [102]) == [p2];
    assert AssignedProviders(roster, assignments, Mid) == [p1, p2];
    assert AssignedProviders(roster, assignments, Opening) == [];
    assert AssignedProviders(roster, assignments, Close) == [];
    assert ShiftHours(17, 30, shifts[1]) == 1.5;
    assert RemainingPatients(p1, 1.5) == 2.75 && RemainingPatients(p2, 1.5) == 2.75;
    assert [p1, p2][..1] == [p1] && [p1][..0] == [];
    assert PatientsSum(1.5, [p1]) == 2.75;
    assert PatientsSum(1.5, [p1, p2]) == 5.5;
    assert shifts[..2][..1] == shifts[..1];
    assert shifts[..1] == [shifts[0]];
    assert shifts[..3] == shifts;
    assert CapacityOf(17, 30, shifts[..1], roster, assignments) == 0.0;
    assert CapacityOf(17, 30, shifts[..2], roster, assignments) == 5.5;
    assert CapacityOf(17, 30, shifts, roster, assignments) == 5.5;
    assert AnyAssigned(shifts[..2], roster, assignments);
    assert ProviderEntries("Mid", 1.5, [p1]) == [Entry("A", "Mid", 1.5, 2.75)];
    assert ProviderEntries("Mid", 1.5, [p1, p2])
           == [Entry("A", "Mid", 1.5, 2.75), Entry("B", "Mid", 1.5, 2.75)];
    assert BreakdownOf(17, 30, shifts[..1], roster, assignments) == [];
    assert BreakdownOf(17, 30, shifts, roster, assignments)
           == [Entry("A", "Mid", 1.5, 2.75), Entry("B", "Mid", 1.5, 2.75)];
  }

  /** With more remaining hours, a group of providers with non-negative
      rates never sees fewer patients. */
  lemma {:induction false} PatientsSumMonotone(h1: real, h2: real, ps: seq<Provider>)
    requires h1 <= h2
    requires forall p :: p in ps ==> p.patientsPerHour >= 0.0
    ensures PatientsSum(h1, ps) <= PatientsSum(h2, ps)
    decreases |ps|
  {
    if ps != [] {
      PatientsSumMonotone(h1, h2, ps[..|ps| - 1]);
      RemainingPatientsMonotone(ps[|ps| - 1], h1, h2);
    }
  }

  /** A later clock never raises the unrounded capacity of any shifts whose
      windows are well formed. */
  lemma {:induction false} CapacityOfNonIncreasing(h1: int, m1: int, h2: int, m2: int, shifts: seq<Shift>,
                                                   roster: seq<Provider>, assignments: map<Slot, seq<int>>)
    requires DecimalTime(h1, m1) <= DecimalTime(h2, m2)
    requires forall i :: 0 <= i < |shifts| ==> shifts[i].window.start <= shifts[i].window.end
    requires forall p :: p in roster ==> p.patientsPerHour >= 0.0
    ensures CapacityOf(h2, m2, shifts, roster, assignments) <= CapacityOf(h1, m1, shifts, roster, assignments)
    decreases |shifts|
  {
    if shifts != [] {
      var shift := shifts[|shifts| - 1];
      CapacityOfNonIncreasing(h1, m1, h2, m2, shifts[..|shifts| - 1], roster, assignments);
      RemainingHoursNonIncreasing(h1, m1, h2, m2, shift.window.start, shift.window.end);
      ResolveFacts(roster, SlotIds(assignments, shift.key));
      PatientsSumMonotone(ShiftHours(h2, m2, shift), ShiftHours(h1, m1, shift),
                          AssignedProviders(roster, assignments, shift.key));
    }
  }

  /** As the day goes on, the number the calculator shows for the same
      roster, assignments and lobby never goes up while the clinic is open. */
  lemma CapacityNonIncreasingOverTime(h1: int, m1: int, h2: int, m2: int, isThursday: bool,
                                      roster: seq<Provider>, assignments: map<Slot, seq<int>>,
                                      patientsInLobby: int)
    requires DecimalTime(h1, m1) <= DecimalTime(h2, m2)
    requires forall p :: p in roster ==> p.patientsPerHour >= 0.0
    requires RemainingCapacity(h2, m2, isThursday, roster, assignments, patientsInLobby).Computed?
    ensures RemainingCapacity(h1, m1, isThursday, roster, assignments, patientsInLobby).Computed?
    ensures RemainingCapacity(h2, m2, isThursday, roster, assignments, patientsInLobby).value
            <= RemainingCapacity(h1, m1, isThursday, roster, assignments, patientsInLobby).value
  {
    var shifts := Shifts(isThursday);
    CapacityOfNonIncreasing(h1, m1, h2, m2, shifts, roster, assignments);
    var c1 := CapacityOf(h1, m1, shifts, roster, assignments);
    var c2 := CapacityOf(h2, m2, shifts, roster, assignments);
    assert c2.Floor <= c1.Floor;
  }

  lemma PrefixStep(hour: int, minute: int, shifts: seq<Shift>, i: nat, roster: seq<Provider>,
                   assignments: map<Slot, seq<int>>)
    requires i < |shifts|
    ensures CapacityOf(hour, minute, shifts[..i + 1], roster, assignments)
            == CapacityOf(hour, minute, shifts[..i], roster, assignments)
               + PatientsSum(ShiftHours(hour, minute, shifts[i]),
                             AssignedProviders(roster, assignments, shifts[i].key))
    ensures BreakdownOf(hour, minute, shifts[..i + 1], roster, assignments)
            == BreakdownOf(hour, minute, shifts[..i], roster, assignments)
               + ProviderEntries(shifts[i].name, ShiftHours(hour, minute, shifts[i]),
                                 AssignedProviders(roster, assignments, shifts[i].key))
    ensures AnyAssigned(shifts[..i + 1], roster, assignments)
            <==> AnyAssigned(shifts[..i], roster, assignments)
                 || AssignedProviders(roster, assignments, shifts[i].key) != []
  {
    assert shifts[..i + 1][..i] == shifts[..i];
    assert shifts[..i + 1][i] == shifts[i];
  }

  lemma ProviderStep(shiftName: string, hours: real, ps: seq<Provider>, j: nat)
    requires j < |ps|
    ensures PatientsSum(hours, ps[..j + 1]) == PatientsSum(hours, ps[..j]) + RemainingPatients(ps[j], hours)
    ensures ProviderEntries(shiftName, hours, ps[..j + 1])
            == ProviderEntries(shiftName, hours, ps[..j])
               + (if RemainingPatients(ps[j], hours) > 0.0
                  then [Entry(ps[j].name, shiftName, hours, RemainingPatients(ps[j], hours))] else [])
  {
    assert ps[..j + 1][..j] == ps[..j];
    assert ps[..j + 1][j] == ps[j];
  }

  /** The inner loop of the calculation, over the providers of one shift:
      adds each provider's remaining patients to `total` and, when
      positive, a line to `breakdown`. */
  method AccumulateShift(hour: int, minute: int, shift: Shift, assignedProviders: seq<Provider>,
                         total0: real, breakdown0: seq<Entry>)
    returns (total: real, breakdown: seq<Entry>)
    ensures total == total0 + PatientsSum(ShiftHours(hour, minute, shift), assignedProviders)
    ensures breakdown == breakdown0 + ProviderEntries(shift.name, ShiftHours(hour, minute, shift), assignedProviders)
  {
    ghost var hours := ShiftHours(hour, minute, shift);
    total, breakdown := total0, breakdown0;
    var j := 0;
    assert assignedProviders[..j] == [];
    while j < |assignedProviders|
      invariant 0 <= j <= |assignedProviders|
      invariant total == total0 + PatientsSum(hours, assignedProviders[..j])
      invariant breakdown == breakdown0 + ProviderEntries(shift.name, hours, assignedProviders[..j])
    {
      var provider := assignedProviders[j];
      var remainingHours := RemainingHours(hour, minute, shift.window.start, shift.window.end);
      var remainingPatients := RemainingPatients(provider, remainingHours);
      ProviderStep(shift.name, hours, assignedProviders, j);
      total := total + remainingPatients;
      if remainingPatients > 0.0 {
        breakdown := breakdown + [Entry(provider.name, shift.name, remainingHours, remainingPatients)];
      }
      j := j + 1;
    }
    assert assignedProviders[..j] == assignedProviders;
  }

  /** The outer loop of the calculation, over the shifts of the day type. */
  method AccumulateShifts(hour: int, minute: int, shifts: seq<Shift>, roster: seq<Provider>,
                          assignments: map<Slot, seq<int>>)
    returns (totalProviderCapacity: real, breakdown: seq<Entry>, hasAnyProviders: bool)
    ensures totalProviderCapacity == CapacityOf(hour, minute, shifts, roster, assignments)
    ensures breakdown == BreakdownOf(hour, minute, shifts, roster, assignments)
    ensures hasAnyProviders <==> AnyAssigned(shifts, roster, assignments)
  {
    totalProviderCapacity := 0.0;
    breakdown := [];
    hasAnyProviders := false;
    var i := 0;
    while i < |shifts|
      invariant 0 <= i <= |shifts|
      invariant totalProviderCapacity == CapacityOf(hour, minute, shifts[..i], roster, assignments)
      invariant breakdown == BreakdownOf(hour, minute, shifts[..i], roster, assignments)
      invariant hasAnyProviders <==> AnyAssigned(shifts[..i], roster, assignments)
    {
      var shift := shifts[i];
      var assignedProviders := AssignedProviders(roster, assignments, shift.key);
      if |assignedProviders| > 0 {
        hasAnyProviders := true;
      }
      totalProviderCapacity, breakdown :=
        AccumulateShift(hour, minute, shift, assignedProviders, totalProviderCapacity, breakdown);
      PrefixStep(hour, minute, shifts, i, roster, assignments);
      i := i + 1;
    }
    assert shifts[..i] == shifts;
  }

  /** `calculateRemainingPatients`: closed after the last shift ends;
      otherwise the accumulated capacity, rounded down, less the lobby,
      with its colour band, or the no-providers value when no shift has a
      provider. */
  method CalculateRemainingPatients(hour: int, minute: int, isThursday: bool, roster: seq<Provider>,
                                    assignments: map<Slot, seq<int>>, patientsInLobby: int)
    returns (result: Outcome)
    ensures result == RemainingCapacity(hour, minute, isThursday, roster, assignments, patientsInLobby)
  {
    var latestShiftEnd := LatestShiftEndTime(isThursday);
    var currentTimeDecimal := DecimalTime(hour, minute);
    if currentTimeDecimal >= latestShiftEnd {
      return Closed;
    }
    var shifts := Shifts(isThursday);
    var totalProviderCapacity, breakdown, hasAnyProviders :=
      AccumulateShifts(hour, minute, shifts, roster, assignments);
    var roundedProviderCapacity := totalProviderCapacity.Floor;
    if !hasAnyProviders {
      var remainingCapacity := 0 - patientsInLobby;
      return NoProviders(remainingCapacity);
    }
    var remainingCapacity := roundedProviderCapacity - patientsInLobby;
    var tier;
    if remainingCapacity < 0 {
      tier := Negative;
    } else if remainingCapacity <= 1 {
      tier := Red;
    } else if remainingCapacity <= 4 {
      tier := Yellow;
    } else {
      tier := Green;
    }
    result := Computed(remainingCapacity, tier, breakdown);
  }
}
