# Clinic remaining-capacity calculator, modelled in Dafny

The calculator tells a walk-in clinic how many more patients its providers
can still see before closing. The projection depends on four inputs: the time
of day, the shift type (the standard Opening/Mid/Close day or the Thursday
day with three identical shifts), which providers are assigned to which shift
slot, and how many patients are already in the lobby.

This project models two parts of the program:

- **The capacity projection** (`schedule.dfy`, `capacity.dfy`):
  - the shift-window table and the closing hour;
  - the hours a provider still works;
  - the "last hour always yields 2 patients" throughput rule;
  - the aggregation. It returns `Closed`, `NoProviders(value)` or
    `Computed(value, tier, breakdown)`.

  The aggregation is an imperative method with two nested loops. It is proved
  equal to a functional specification, `RemainingCapacity`, and the
  properties are proved about that specification.
- **The roster and assignment state** (`clinic.dfy`, with pure helpers in
  `providers.dfy`, `assignments.dfy` and `text.dfy`). The class
  `Clinic.Roster` holds two fields: the provider list and the slot-to-ids
  map. Its methods update them in place:
  - merging saved providers at start-up;
  - deleting a provider;
  - renaming, re-rating, locking and unlocking a provider;
  - assigning a provider to a slot, and removing one from a slot.

  The class invariant `Valid()` has two parts: every slot has a list, and
  each provider id sits in at most one slot, at most once. Every method that
  touches assignments preserves it.

Time is `hour + minute / 60` as an exact `real`. Rates are `real`. An id is an
`int`. The empty dropdown option parses to NaN in the source; the model
writes it as `None`.

## Model

| member | source | states |
|---|---|---|
| Schedule.ShiftTimes | script.js:458-472 | The Thursday table has exactly the three Thursday slots and the standard table exactly Opening/Mid/Close; every window starts before it ends |
| Schedule.Shifts | script.js:594-607 | Three shifts per day type, each carrying its slot's window from the shift table, with distinct slots |
| Schedule.LatestShiftEndIsMaxEnd | script.js:515-521 | The closing hour (19 on Thursday, 20 otherwise) bounds every window end of the matching table and is attained by one of them |
| Schedule.LatestShiftEndTime | script.js:515-521 | The closing hour, 19 on Thursday and 20 otherwise; `LatestShiftEndIsMaxEnd` ties it to the shift table |
| Schedule.DecimalTime | script.js:476 | For a minute in 0..59 the decimal time lies in the hour it names, at or after the hour and before the next |
| Schedule.RemainingHours | script.js:475-491 | The full window length before the start; `end - t` inside the window; 0 at or after the end; always within `[0, end - start]` |
| Schedule.RemainingHoursZeroIffOver | script.js:483-485 | For a proper window, the remaining hours are 0 exactly when the time is at or past its end |
| Schedule.RemainingHoursNonIncreasing | script.js:475-491 | A later time never leaves more remaining hours |
| Capacity.RemainingPatients | script.js:494-512 | 0 for no time left; exactly 2 for any time in (0, 1) whatever the rate; at least 2 for a non-negative rate |
| Capacity.RemainingPatientsBilledAtRate | script.js:505-511 | One hour left yields exactly 2; from there every extra hour is billed at the provider's rate |
| Capacity.RemainingPatientsMonotone | script.js:494-512 | For a non-negative rate, more hours never yield fewer patients |
| Capacity.TierOf | script.js:699-707 | Negative below 0, red for 0..1, yellow for 2..4, green from 5; each as an if-and-only-if, so the tiers are exhaustive and disjoint |
| Capacity.RemainingCapacity | script.js:542-707 | Closed exactly at or after the closing hour, whatever the roster and lobby; NoProviders exactly when open and no shift resolves to a provider, with value `0 - lobby`; otherwise the floor of the unrounded total minus the lobby, with that value's tier; a computed outcome carries the breakdown of all active shifts |
| Capacity.AnyAssignedIff | script.js:609-617 | The "any providers" flag holds exactly when some active shift resolves at least one assigned id to a roster provider |
| Capacity.AssignedProviders | script.js:611-613 | A slot's ids resolved to roster providers, a missing slot counting as empty; `ResolveFacts` and `ResolveAppend` state what it holds |
| Capacity.PatientsSum | script.js:619-628 | The unrounded sum of the remaining patients of a shift's providers; `PatientsSumMonotone` states how it grows with the hours, and `AccumulateShift` proves the loop's additions equal to it |
| Capacity.ProviderEntries | script.js:630-637 | A shift's breakdown lines; `ProviderEntriesExact` and `ProviderEntriesAppend` state which lines and in what order |
| Capacity.CapacityOf | script.js:609-628 | The unrounded total of all shifts' remaining patients; it has no contract of its own, and `CapacityOfNonIncreasing` and `FloorAppliesToTheTotal` state its properties |
| Capacity.BreakdownOf | script.js:630-637 | The breakdown list over all shifts; `BreakdownExact` and `BreakdownPositive` state what it holds |
| Capacity.AnyAssigned | script.js:609-617 | Whether some shift resolves an assigned id; `AnyAssignedIff` states it as an if-and-only-if |
| Capacity.NoProvidersWhenAllStale | script.js:609-613 | When every assigned id is missing from the roster, an open clinic reports NoProviders with `0 - lobby` |
| Capacity.ProviderEntriesExact | script.js:630-637 | An entry is a shift's breakdown line exactly when it belongs to a listed provider whose remaining patients exceed 0, and carries that provider's name, the shift label, the hours left and its remaining patients; there are never more lines than listed providers |
| Capacity.ProviderEntriesAppend | script.js:619-637 | The lines of a shift come provider by provider in list order: the lines of two lists joined are the lines of each, and one provider adds its single line when its remaining patients exceed 0 and none otherwise |
| Capacity.BreakdownExact | script.js:609-637 | An entry is in the whole breakdown exactly when it is an entry of one of the active shifts, over that shift's resolved providers and its remaining hours |
| Capacity.BreakdownPositive | script.js:630-637 | Every breakdown entry has remaining patients above 0 |
| Capacity.FloorAppliesToTheTotal | script.js:642 | The floor is taken of the sum and not per provider: two providers with 2.75 each give 5, where floors per provider would give 4 |
| Capacity.PatientsSumMonotone | script.js:619-628 | With non-negative rates, the summed patients of a shift's providers never shrink as their remaining hours grow |
| Capacity.CapacityOfNonIncreasing | script.js:609-639 | With non-negative rates and proper windows, the unrounded total at a later time is at most the total at an earlier time |
| Capacity.CapacityNonIncreasingOverTime | script.js:681 | If the later time yields a computed value, so does the earlier one, and the later value is no larger |
| Capacity.AccumulateShift | script.js:619-638 | The inner loop adds the shift providers' summed remaining patients to the total and appends their positive breakdown entries in order |
| Capacity.AccumulateShifts | script.js:609-639 | The outer loop returns exactly the total, the breakdown and the "any providers" flag of the specification |
| Capacity.CalculateRemainingPatients | script.js:542-707 | The imperative calculation returns exactly the outcome `RemainingCapacity` specifies |
| Providers.BaseProviderIdsMatch | script.js:10-18 | The seven built-in providers carry ids 1..7 in order, matching the id list used by the merge |
| Providers.FindIndex | script.js:76 | `None` exactly when no provider has the id; otherwise the first position holding it |
| Providers.ResolveFacts | script.js:611-613 | Resolving ids keeps only roster providers named by the ids, never more than the ids; every id that names a provider contributes that provider; the list yields nothing exactly when every id is stale |
| Providers.ResolveAppend | script.js:611-613 | A joined list resolves to the providers of each part, in order |
| Providers.ResolveAppendOne | script.js:611-613 | One more id adds its provider at the end when it names one, and nothing otherwise, so every valid id of a slot is counted once and in order |
| Providers.ResolveSkipsStale | script.js:611-613 | A stale id anywhere in a slot changes nothing in the resolved list |
| Providers.WithoutProvider | script.js:170 | Exactly the providers with other ids remain |
| Providers.WithoutTestNames | script.js:89 | Exactly the providers not named "test" remain |
| Providers.WithoutProviderAppend | script.js:170 | Deleting by id distributes over concatenation, so the kept providers stay in their order |
| Providers.WithoutProviderCounts | script.js:170 | Every provider with the deleted id is gone and every other provider keeps its count |
| Providers.WithoutTestNamesAppend | script.js:89 | The "test" filter distributes over concatenation, so the kept providers stay in their order |
| Providers.WithoutTestNamesCounts | script.js:89 | Every "test" provider is gone and every other provider keeps its count |
| Providers.Find | script.js:156 | Nothing is found exactly when no provider has the id; otherwise the result is the first provider in the list with the id |
| Providers.Resolve | script.js:611-613 | The assigned ids mapped to roster providers with unknown ids dropped; `ResolveFacts` and `ResolveSkipsStale` state its properties |
| Providers.IsTestName | script.js:67 | A name is a "test" name when, lower-cased and trimmed, it is "test"; `NotTestName` and `BaseNamesAreNotTest` state which names are not |
| Providers.MergeSaved | script.js:65-86 | The built-in roster with each saved provider merged in turn; `MergeSavedShape` gives its closed form, and `LoadProviders` proves its loop equal to it |
| Providers.Merged | script.js:58-89 | The merged roster with "test" names filtered out; `MergedHasNoTestNames` shows the filter removes nothing |
| Providers.MergeOne | script.js:65-86 | One step of the saved-provider merge; `MergeSavedStep` and `MergeSavedShape` state its effect |
| Providers.BaseOrder | script.js:41-43 | A name ranks k exactly when it lower-cases to the k-th built-in name, and 999 exactly when it lower-cases to none of them |
| Providers.Precedes | script.js:32-49 | The sort comparator; `PrecedesTotal` and `PrecedesTransitive` state that it is a total preorder |
| Providers.MergeSavedStep | script.js:65-86 | Merging one more saved provider is one step of the merge callback |
| Providers.MergeSavedShape | script.js:58-86 | The merged list is the seven built-in positions, each holding that provider's last saved override (marked built-in) or the built-in record, followed by the saved temporaries in order |
| Providers.MergeShapeBaseStep | script.js:72-79 | A saved built-in provider replaces its own built-in position, marked built-in, and leaves the other positions and the temporaries as they were |
| Providers.MergeShapeTemporaryStep | script.js:80-84 | A saved temporary provider is appended after the earlier temporaries and leaves the built-in positions as they were |
| Providers.TemporariesAreNotBase | script.js:80-84 | Appended providers never carry a built-in id and are never named "test" |
| Providers.BaseNamesAreNotTest | script.js:10-18 | None of the built-in names reads as "test" |
| Providers.MergedHasNoTestNames | script.js:58-89 | The final "test" filter removes nothing the merge loop let through, and no merged provider is named "test" |
| Providers.BaseOrderOfBase | script.js:21-27 | Each built-in name ranks at its own position in the built-in order |
| Providers.PrecedesTotal | script.js:32-49 | The comparator orders every pair one way or the other |
| Providers.PrecedesTransitive | script.js:32-49 | The comparator is transitive |
| Providers.InsertPermutes | script.js:32 | Inserting adds exactly the inserted provider |
| Providers.InsertKeepsSorted | script.js:32 | Inserting into a sorted list keeps it sorted |
| Providers.SortByBaseOrder | script.js:30-50 | The result is a permutation of the input and sorted by the comparator |
| Providers.BaseProvidersListedFirst | script.js:36-38 | In the sorted list no temporary provider stands before a built-in one, built-in providers follow the built-in order, and temporaries stand newest (largest id) first |
| Text.Trim | script.js:197 | Whitespace dropped from both ends; `TrimFacts` and `TrimOfTrimmed` state its properties |
| Text.ToLower | script.js:67 | Same length; every ASCII capital becomes its own lower-case letter and every other character is unchanged |
| Text.TrimFacts | script.js:217 | A trimmed name has no whitespace at either end, and it is empty exactly when the name was all whitespace |
| Text.TrimOfTrimmed | script.js:197 | Trimming an already trimmed name changes nothing |
| Assignments.Without | script.js:396 | The filtered slot is never longer than the slot; `WithoutCounts` states which ids it keeps |
| Assignments.Evicted | script.js:395-397 | Eviction keeps exactly the slots there were; `EvictedRemovesOnlyId` states their contents |
| Assignments.Reassigned | script.js:393-405 | The slot map after a selection; `ReassignedPlacesOnce`, `ReassignedKeepsOthers` and `ReassignedKeepsUnique` state its properties |
| Assignments.RemovedFromShift | script.js:414-416 | Removal keeps exactly the slots there were; `RemovedFromShiftOnlyThatSlot` states their contents |
| Assignments.WithoutCounts | script.js:396 | Filtering a slot removes every copy of the id and keeps every other id's count |
| Assignments.WithoutAppend | script.js:396 | Filtering distributes over concatenation |
| Assignments.WithoutIdempotent | script.js:396 | Filtering twice is filtering once |
| Assignments.EvictedRemovesOnlyId | script.js:395-397 | After eviction the id is in no slot, every other id keeps its count in every slot, no slot is added or dropped, and uniqueness is kept |
| Assignments.ReassignedPlacesOnce | script.js:400-405 | A valid id ends up in the chosen slot exactly once and last, and in no other slot |
| Assignments.ReassignedKeepsOthers | script.js:395-405 | Apart from the chosen id, every slot keeps its ids in the same order; the empty option changes nothing |
| Assignments.ReassignedKeepsUnique | script.js:393-411 | Reassignment keeps every id in at most one slot, at most once |
| Assignments.AppendAbsentKeepsUnique | script.js:404 | Appending an id that no slot holds keeps uniqueness |
| Assignments.RemovedFromShiftOnlyThatSlot | script.js:414-416 | Only the named slot changes, and the id is gone from it |
| Assignments.RemovedFromShiftKeepsUnique | script.js:414-416 | Removal from a slot keeps uniqueness |
| Clinic.WithoutProviderKeepsLocks | script.js:170 | Deleting a provider keeps every locked provider validly named and rated |
| Clinic.Roster.constructor | script.js:2-114 | The start-up state of lines 2-7 and the slot map of lines 105-114: no providers, every slot's list empty, and the invariant holding |
| Clinic.Roster.LoadProviders | script.js:58-89 | The merge loop leaves exactly the merged list, with no provider named "test", and does not touch the assignments |
| Clinic.Roster.MergeInto | script.js:65-86 | A "test" provider is skipped; a built-in id overwrites its built-in entry, kept marked built-in; any other provider is appended |
| Clinic.Roster.EvictEverywhere | script.js:171-184 | The id is filtered out of each of the six slots |
| Clinic.Roster.DeleteProvider | script.js:155-185 | Once confirmed, the provider leaves the roster and every slot and nothing else changes; declined, nothing changes; lock validity and the invariant are kept |
| Clinic.Roster.UpdateProviderName | script.js:194-201 | An unlocked provider found by id takes the trimmed name, which then has no whitespace at its ends; a locked or unknown one is unchanged |
| Clinic.Roster.UpdateProviderRate | script.js:204-211 | An unlocked provider found by id takes the rate; a locked or unknown one is unchanged |
| Clinic.Roster.SubmitProvider | script.js:214-229 | A provider is locked only when its trimmed name is non-empty and its rate is positive; otherwise nothing changes, so every lock stays valid |
| Clinic.Roster.EditProvider | script.js:232-236 | The provider found by id is unlocked; nothing else changes |
| Clinic.Roster.HandleShiftProviderChange | script.js:393-411 | The new slot map is the provider evicted everywhere and then appended to the chosen slot; the invariant is kept |
| Clinic.Roster.RemoveProviderFromShift | script.js:414-422 | Only the named slot loses the id; the invariant is kept |

## Left out

- DOM reading and writing, `localStorage` persistence and JSON parsing are not modelled. Time, shift type, roster, assignments and lobby count are parameters. The saved providers reach `LoadProviders` as a list. Restoring saved assignments is not modelled: the start-up slot map is the one the constructor builds.
- `alert`, `setTimeout` focus handling, event listeners, keyboard shortcuts and `console.log` are not modelled. The `confirm` dialog of deleting a provider is the `confirmed` parameter.
- Input parsing is not modelled: `parseFloat`/`parseInt` of inputs and splitting `"HH:MM"`. `UpdateProviderRate` receives the number the text parsed to, with an unparsable entry as 0. The calculation receives hour, minute and lobby count as integers.
- Display formatting is not modelled: the 12-hour clock text and the `toFixed` strings of the breakdown. Breakdown entries hold the exact reals, not their rounded text.
- Arithmetic is exact `real`. IEEE-754 double rounding (for example of 1.8-rate products) is not modelled, so every result is the exact-arithmetic semantics.
- `toLowerCase` is modelled on ASCII letters only. Full Unicode case mapping is not modelled.
- Provider names are always strings. The source's `!p.name` guards for a missing name are not needed.
- Capacity.RemainingPatients: the last-hour yield is the fixed constant 2.0 that the code hard-codes. It is not a configurable parameter.
- Providers.SortByBaseOrder: stability of the sort is not stated. Only ordering and permutation are.
- `addProviderRow` and `clearAllShifts` are not modelled. The same applies to the loop that defaults a missing `submitted` flag to false: in the model every provider always has the flag.
- `renderProviders` and `updateShiftAssignments` are not modelled. They only rebuild the page from the state.
- Clinic.Roster.DeleteProvider: the source guards the three Thursday slots by presence. The class invariant keeps every slot present, so the model filters them unconditionally.
- Clinic.Roster.HandleShiftProviderChange: the source creates the chosen slot's list if it is missing. Under the class invariant it is never missing, so the model does not create it.
- A slot is an ordered list of ids, not a set. Each id is held at most once and in at most one slot because every selection first evicts the id everywhere; `UniquelyAssigned` states this.
- Providers.BaseOrder: the source looks a lower-cased name up in a plain object. A built-in provider renamed "constructor" or "__proto__" (after lower-casing) finds a value inherited from `Object.prototype`, so the comparator yields NaN and the sort order is implementation-defined. The model ranks every name outside the built-in table 999, so it does not capture that behaviour.
