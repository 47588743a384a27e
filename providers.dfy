/** Provider records, lookup by id, the built-in roster, the merge of saved
    providers into it, and the display order of the roster. */
module Providers {
  import opened Options
  import opened Text

  /** One provider row. `submitted` is the lock: a submitted provider's name
      and rate cannot be edited. `isBase` marks the built-in providers. */
  datatype Provider = Provider(id: int, name: string, patientsPerHour: real, submitted: bool, isBase: bool)

  /** The built-in providers, in display order. */
  const BaseProviders: seq<Provider> := [
    Provider(1, "Ryan", 2.0, true, true),
    Provider(2, "Kristy", 1.8, true, true),
    Provider(3, "Mikaela", 2.0, true, true),
    Provider(4, "Dan", 1.8, true, true),
    Provider(5, "Johny", 1.9, true, true),
    Provider(6, "Nicole", 2.2, true, true),
    Provider(7, "Lauren", 2.0, true, true)
  ]

  /** The ids of the built-in providers. */
  const BaseProviderIds: seq<int> := [1, 2, 3, 4, 5, 6, 7]

  lemma BaseProviderIdsMatch()
    ensures |BaseProviderIds| == |BaseProviders|
    ensures forall i :: 0 <= i < |BaseProviders| ==> BaseProviders[i].id == BaseProviderIds[i] == i + 1
  {
  }

  // ---------------------------------------------------------------- lookup

  /** The first position whose provider has `id`, if any. */
  function FindIndex(ps: seq<Provider>, id: int): (r: Option<nat>)
    ensures r.None? <==> forall i :: 0 <= i < |ps| ==> ps[i].id != id
    ensures r.Some? ==> r.value < |ps| && ps[r.value].id == id
    ensures r.Some? ==> forall i :: 0 <= i < r.value ==> ps[i].id != id
  {
    if ps == [] then None
    else if ps[0].id == id then Some(0)
    else match FindIndex(ps[1..], id)
         case None => None
         case Some(k) => Some(k + 1)
  }

  /** The first provider with `id`, if any. */
  function Find(ps: seq<Provider>, id: int): (r: Option<Provider>)
    ensures r.None? <==> forall p :: p in ps ==> p.id != id
    ensures r.Some? ==> r.value in ps && r.value.id == id
    ensures r.Some? ==> exists i :: 0 <= i < |ps| && ps[i] == r.value && forall j :: 0 <= j < i ==> ps[j].id != id
  {
    match FindIndex(ps, id)
    case None => None
    case Some(i) => Some(ps[i])
  }

  /** The providers an assignment list refers to, in list order; ids that
      no longer name a provider are dropped. */
  function Resolve(roster: seq<Provider>, ids: seq<int>): seq<Provider> {
    if ids == [] then []
    else
      match Find(roster, ids[0])
      case None => Resolve(roster, ids[1..])
      case Some(p) => [p] + Resolve(roster, ids[1..])
  }

  /** Every resolved provider is a roster entry named in the list, and the
      list resolves to nothing exactly when none of its ids is in the
      roster. */
  lemma {:induction false} ResolveFacts(roster: seq<Provider>, ids: seq<int>)
    ensures |Resolve(roster, ids)| <= |ids|
    ensures forall p :: p in Resolve(roster, ids) ==> p in roster && p.id in ids
    ensures Resolve(roster, ids) == [] <==> forall k :: 0 <= k < |ids| ==> FindIndex(roster, ids[k]).None?
    ensures forall k :: 0 <= k < |ids| && Find(roster, ids[k]).Some? ==> Find(roster, ids[k]).value in Resolve(roster, ids)
  {
    if ids != [] {
      ResolveFacts(roster, ids[1..]);
      assert forall k :: 1 <= k < |ids| ==> ids[k] == ids[1..][k - 1];
    }
  }

  /** Resolving works id by id: a list resolves to its parts' providers,
      in order. */
  lemma {:induction false} ResolveAppend(roster: seq<Provider>, a: seq<int>, b: seq<int>)
    ensures Resolve(roster, a + b) == Resolve(roster, a) + Resolve(roster, b)
  {
    if a == [] {
      assert a + b == b;
    } else {
      var ab := a + b;
      assert ab[0] == a[0] && ab[1..] == a[1..] + b;
      ResolveAppend(roster, a[1..], b);
      match Find(roster, a[0])
      case None =>
      case Some(p) =>
        ConcatAssociates([p], Resolve(roster, a[1..]), Resolve(roster, b));
    }
  }

  /** Appending an id to a slot adds its provider at the end when the id
      names one, and nothing otherwise. */
  lemma ResolveAppendOne(roster: seq<Provider>, ids: seq<int>, id: int)
    ensures Resolve(roster, ids + [id]) == Resolve(roster, ids) +
              match Find(roster, id) case None => [] case Some(p) => [p]
  {
    ResolveAppend(roster, ids, [id]);
    assert [id][1..] == [];
  }

  /** An id that names no provider contributes nothing, wherever it stands
      in an assignment list. */
  lemma {:induction false} ResolveSkipsStale(roster: seq<Provider>, before: seq<int>, id: int, after: seq<int>)
    requires FindIndex(roster, id).None?
    ensures Resolve(roster, before + [id] + after) == Resolve(roster, before + after)
  {
    if before == [] {
      assert Find(roster, id).None?;
      assert before + [id] + after == [id] + after;
      assert ([id] + after)[1..] == after;
      assert before + after == after;
      assert Resolve(roster, [id] + after) == Resolve(roster, after);
    } else {
      ResolveSkipsStale(roster, before[1..], id, after);
      assert (before + [id] + after)[1..] == before[1..] + [id] + after;
      assert (before + after)[1..] == before[1..] + after;
    }
  }

  /** `ps` without the providers whose id is `id`, the rest in order. */
  function WithoutProvider(ps: seq<Provider>, id: int): (r: seq<Provider>)
    ensures forall p :: p in r <==> p in ps && p.id != id
    ensures |r| <= |ps|
  {
    if ps == [] then []
    else (if ps[0].id == id then [] else [ps[0]]) + WithoutProvider(ps[1..], id)
  }

  lemma ConcatAssociates(a: seq<Provider>, b: seq<Provider>, c: seq<Provider>)
    ensures a + (b + c) == (a + b) + c
  {
  }

  /** Deleting works piece by piece, so the providers it keeps stay in
      their relative order. */
  lemma {:induction false} WithoutProviderAppend(a: seq<Provider>, b: seq<Provider>, id: int)
    ensures WithoutProvider(a + b, id) == WithoutProvider(a, id) + WithoutProvider(b, id)
  {
    if a == [] {
      assert a + b == b;
    } else {
      var head := if a[0].id == id then [] else [a[0]];
      var ab := a + b;
      assert ab[1..] == a[1..] + b;
      assert WithoutProvider(ab, id) == head + WithoutProvider(a[1..] + b, id) by {
        assert ab[0] == a[0];
      }
      WithoutProviderAppend(a[1..], b, id);
      var x, y := WithoutProvider(a[1..], id), WithoutProvider(b, id);
      assert WithoutProvider(a, id) == head + x;
      ConcatAssociates(head, x, y);
    }
  }

  /** Deleting drops every copy of a provider with `id` and keeps every
      other provider as often as it was there. */
  lemma {:induction false} WithoutProviderCounts(ps: seq<Provider>, id: int)
    ensures forall p :: multiset(WithoutProvider(ps, id))[p] == if p.id == id then 0 else multiset(ps)[p]
  {
    if ps != [] {
      WithoutProviderCounts(ps[1..], id);
      assert ps == [ps[0]] + ps[1..];
    }
  }

  // ---------------------------------------------------------------- merge

  /** A name that is "test" once lower-cased and trimmed. */
  predicate IsTestName(name: string) {
    Trim(ToLower(name)) == "test"
  }

  /** One step of the merge of saved providers: a "test" provider is
      skipped, a saved copy of a built-in provider replaces it in place,
      and any other provider is appended. */
  function MergeOne(acc: seq<Provider>, p: Provider): seq<Provider> {
    if IsTestName(p.name) then acc
    else if p.id in BaseProviderIds then
      match FindIndex(acc, p.id)
      case None => acc
      case Some(i) => acc[i := p.(isBase := true)]
    else acc + [p]
  }

  /** The built-in roster after merging `saved` in order. */
  function MergeSaved(saved: seq<Provider>): seq<Provider>
    decreases |saved|
  {
    if saved == [] then BaseProviders
    else MergeOne(MergeSaved(saved[..|saved| - 1]), saved[|saved| - 1])
  }

  lemma MergeSavedStep(saved: seq<Provider>, k: nat)
    requires k < |saved|
    ensures MergeSaved(saved[..k + 1]) == MergeOne(MergeSaved(saved[..k]), saved[k])
  {
    assert saved[..k + 1][..k] == saved[..k];
  }

  /** `ps` without the providers named "test" (any case, any surrounding
      whitespace), the rest in order. */
  function WithoutTestNames(ps: seq<Provider>): (r: seq<Provider>)
    ensures forall p :: p in r <==> p in ps && !IsTestName(p.name)
  {
    if ps == [] then []
    else (if IsTestName(ps[0].name) then [] else [ps[0]]) + WithoutTestNames(ps[1..])
  }

  /** The "test" filter works piece by piece, so the providers it keeps
      stay in their relative order. */
  lemma {:induction false} WithoutTestNamesAppend(a: seq<Provider>, b: seq<Provider>)
    ensures WithoutTestNames(a + b) == WithoutTestNames(a) + WithoutTestNames(b)
  {
    if a == [] {
      assert a + b == b;
    } else {
      var head := if IsTestName(a[0].name) then [] else [a[0]];
      var ab := a + b;
      assert ab[1..] == a[1..] + b;
      assert WithoutTestNames(ab) == head + WithoutTestNames(a[1..] + b) by {
        assert ab[0] == a[0];
      }
      WithoutTestNamesAppend(a[1..], b);
      assert head + (WithoutTestNames(a[1..]) + WithoutTestNames(b))
             == (head + WithoutTestNames(a[1..])) + WithoutTestNames(b);
    }
  }

  /** The "test" filter drops every copy of a "test" provider and keeps
      every other provider as often as it was there. */
  lemma {:induction false} WithoutTestNamesCounts(ps: seq<Provider>)
    ensures forall p :: multiset(WithoutTestNames(ps))[p] == if IsTestName(p.name) then 0 else multiset(ps)[p]
  {
    if ps != [] {
      WithoutTestNamesCounts(ps[1..]);
      assert ps == [ps[0]] + ps[1..];
    }
  }

  /** The roster loading builds from the saved providers. */
  function Merged(saved: seq<Provider>): seq<Provider> {
    WithoutTestNames(MergeSaved(saved))
  }

  /** The saved providers that are appended: not "test", not built-in. */
  function Temporaries(saved: seq<Provider>): (r: seq<Provider>)
    decreases |saved|
  {
    if saved == [] then []
    else
      var p := saved[|saved| - 1];
      Temporaries(saved[..|saved| - 1]) +
      (if IsTestName(p.name) || p.id in BaseProviderIds then [] else [p])
  }

  /** What stands in the place of built-in provider `b` after the merge:
      the last non-"test" saved copy with its id, or `b` itself. */
  function Override(saved: seq<Provider>, b: Provider): Provider
    decreases |saved|
  {
    if saved == [] then b
    else
      var p := saved[|saved| - 1];
      if !IsTestName(p.name) && p.id == b.id then p.(isBase := true)
      else Override(saved[..|saved| - 1], b)
  }

  /** A name that starts with a capital other than T and ends with a small
      letter is not "test" in any spelling. */
  lemma NotTestName(name: string)
    requires |name| > 0 && 'A' <= name[0] <= 'Z' && name[0] != 'T'
    requires 'a' <= name[|name| - 1] <= 'z'
    ensures !IsTestName(name)
  {
    var lower := ToLower(name);
    assert lower[0] == LowerChar(name[0]) && lower[|lower| - 1] == name[|name| - 1];
    TrimOfTrimmed(lower);
  }

  lemma BaseNamesAreNotTest()
    ensures forall i :: 0 <= i < |BaseProviders| ==> !IsTestName(BaseProviders[i].name)
  {
    forall i | 0 <= i < |BaseProviders| ensures !IsTestName(BaseProviders[i].name) {
      var name := BaseProviders[i].name;
      assert 'A' <= name[0] <= 'Z' && name[0] != 'T' && 'a' <= name[|name| - 1] <= 'z';
      NotTestName(name);
    }
  }

  /** The merged roster is the seven built-in slots, each holding the last
      saved copy of that provider, followed by the temporary providers in
      saved order. */
  ghost predicate HasMergedShape(saved: seq<Provider>) {
    && |MergeSaved(saved)| == |BaseProviders| + |Temporaries(saved)|
    && (forall i :: 0 <= i < |BaseProviders| ==>
          MergeSaved(saved)[i] == Override(saved, BaseProviders[i]))
    && MergeSaved(saved)[|BaseProviders|..] == Temporaries(saved)
  }

  lemma {:induction false} MergeSavedShape(saved: seq<Provider>)
    ensures |MergeSaved(saved)| == |BaseProviders| + |Temporaries(saved)|
    ensures forall i :: 0 <= i < |BaseProviders| ==>
              MergeSaved(saved)[i] == Override(saved, BaseProviders[i])
    ensures MergeSaved(saved)[|BaseProviders|..] == Temporaries(saved)
  {
    if saved != [] {
      var init, p := saved[..|saved| - 1], saved[|saved| - 1];
      MergeSavedShape(init);
      if IsTestName(p.name) {
        assert HasMergedShape(saved);
      } else if p.id in BaseProviderIds {
        MergeShapeBaseStep(saved);
      } else {
        MergeShapeTemporaryStep(saved);
      }
    }
  }

  /** A saved built-in provider overwrites its own slot and nothing else. */
  lemma MergeShapeBaseStep(saved: seq<Provider>)
    requires saved != []
    requires HasMergedShape(saved[..|saved| - 1])
    requires !IsTestName(saved[|saved| - 1].name) && saved[|saved| - 1].id in BaseProviderIds
    ensures HasMergedShape(saved)
  {
    var init, p := saved[..|saved| - 1], saved[|saved| - 1];
    BaseProviderIdsMatch();
    TemporariesAreNotBase(init);
    var acc := MergeSaved(init);
    forall i | 0 <= i < |BaseProviders| ensures acc[i].id == i + 1 {
      OverrideKeepsId(init, BaseProviders[i]);
    }
    var k := p.id - 1;
    assert 0 <= k < |BaseProviders| && acc[k].id == p.id;
    assert FindIndex(acc, p.id) == Some(k);
    assert MergeSaved(saved) == acc[k := p.(isBase := true)];
    assert MergeSaved(saved)[|BaseProviders|..] == acc[|BaseProviders|..];
  }

  /** A saved temporary provider is appended after the others. */
  lemma MergeShapeTemporaryStep(saved: seq<Provider>)
    requires saved != []
    requires HasMergedShape(saved[..|saved| - 1])
    requires !IsTestName(saved[|saved| - 1].name) && saved[|saved| - 1].id !in BaseProviderIds
    ensures HasMergedShape(saved)
  {
    var init, p := saved[..|saved| - 1], saved[|saved| - 1];
    BaseProviderIdsMatch();
    var acc := MergeSaved(init);
    assert MergeSaved(saved) == acc + [p];
    assert MergeSaved(saved)[|BaseProviders|..] == acc[|BaseProviders|..] + [p];
    forall i | 0 <= i < |BaseProviders| ensures MergeSaved(saved)[i] == Override(saved, BaseProviders[i]) {
      assert BaseProviders[i].id == i + 1;
    }
  }

  lemma {:induction false} OverrideKeepsId(saved: seq<Provider>, b: Provider)
    ensures Override(saved, b).id == b.id
  {
    if saved != [] {
      OverrideKeepsId(saved[..|saved| - 1], b);
    }
  }

  lemma {:induction false} TemporariesAreNotBase(saved: seq<Provider>)
    ensures forall p :: p in Temporaries(saved) ==> p.id !in BaseProviderIds && !IsTestName(p.name)
  {
    if saved != [] {
      TemporariesAreNotBase(saved[..|saved| - 1]);
    }
  }

  /** No provider called "test" survives the merge, so the final filter of
      the load removes nothing. */
  lemma MergedHasNoTestNames(saved: seq<Provider>)
    ensures Merged(saved) == MergeSaved(saved)
    ensures forall p :: p in Merged(saved) ==> !IsTestName(p.name)
  {
    MergeSavedShape(saved);
    BaseNamesAreNotTest();
    TemporariesAreNotBase(saved);
    var m := MergeSaved(saved);
    forall i | 0 <= i < |m| ensures !IsTestName(m[i].name) {
      if i < |BaseProviders| {
        OverrideNotTest(saved, BaseProviders[i]);
      } else {
        assert m[i] == Temporaries(saved)[i - |BaseProviders|];
      }
    }
    NoTestNamesFiltersNothing(m);
  }

  lemma {:induction false} OverrideNotTest(saved: seq<Provider>, b: Provider)
    requires !IsTestName(b.name)
    ensures !IsTestName(Override(saved, b).name)
  {
    if saved != [] {
      OverrideNotTest(saved[..|saved| - 1], b);
    }
  }

  lemma {:induction false} NoTestNamesFiltersNothing(ps: seq<Provider>)
    requires forall i :: 0 <= i < |ps| ==> !IsTestName(ps[i].name)
    ensures WithoutTestNames(ps) == ps
  {
    if ps != [] {
      NoTestNamesFiltersNothing(ps[1..]);
    }
  }

  // ---------------------------------------------------------------- order

  /** The position of `name` among the built-in names, compared after
      lower-casing, or 999 for a name that is not one of them. */
  function BaseOrder(name: string): (r: int)
    ensures r == 999 || 0 <= r < |BaseProviders|
    ensures r != 999 ==> ToLower(BaseProviders[r].name) == ToLower(name)
    ensures r == 999 <==> forall k :: 0 <= k < |BaseProviders| ==> ToLower(BaseProviders[k].name) != ToLower(name)
  {
    OrderFrom(ToLower(name), 0)
  }

  function OrderFrom(lowerName: string, k: nat): (r: int)
    requires k <= |BaseProviders|
    ensures r == 999 || k <= r < |BaseProviders|
    ensures r != 999 ==> ToLower(BaseProviders[r].name) == lowerName
    ensures r == 999 <==> forall j :: k <= j < |BaseProviders| ==> ToLower(BaseProviders[j].name) != lowerName
    decreases |BaseProviders| - k
  {
    if k == |BaseProviders| then 999
    else if ToLower(BaseProviders[k].name) == lowerName then k
    else OrderFrom(lowerName, k + 1)
  }

  /** Each built-in provider's name ranks at its own position. */
  lemma BaseOrderOfBase(i: nat)
    requires i < |BaseProviders|
    ensures BaseOrder(BaseProviders[i].name) == i
  {
    var lower := ToLower(BaseProviders[i].name);
    forall k | 0 <= k < i ensures ToLower(BaseProviders[k].name) != lower {
      assert ToLower(BaseProviders[k].name)[0] != lower[0];
    }
    OrderFromSkips(lower, 0, i);
  }

  lemma {:induction false} OrderFromSkips(lowerName: string, k: nat, i: nat)
    requires k <= i < |BaseProviders|
    requires forall j :: k <= j < i ==> ToLower(BaseProviders[j].name) != lowerName
    requires ToLower(BaseProviders[i].name) == lowerName
    ensures OrderFrom(lowerName, k) == i
    decreases i - k
  {
    if k < i {
      OrderFromSkips(lowerName, k + 1, i);
    }
  }

  /** The sort comparator `compare(a, b) <= 0`: `a` may stand before `b`.
      Built-in providers come first, in built-in order; temporary ones
      follow, newest (largest id) first. */
  predicate Precedes(a: Provider, b: Provider) {
    if a.isBase && !b.isBase then true
    else if !a.isBase && b.isBase then false
    else if a.isBase && b.isBase then BaseOrder(a.name) - BaseOrder(b.name) <= 0
    else b.id - a.id <= 0
  }

  predicate SortedByBaseOrder(ps: seq<Provider>) {
    forall i, j :: 0 <= i < j < |ps| ==> Precedes(ps[i], ps[j])
  }

  lemma PrecedesTotal(a: Provider, b: Provider)
    ensures Precedes(a, b) || Precedes(b, a)
  {
  }

  lemma PrecedesTransitive(a: Provider, b: Provider, c: Provider)
    requires Precedes(a, b) && Precedes(b, c)
    ensures Precedes(a, c)
  {
  }

  /** Places `x` before the first element it may precede, so that it stays
      ahead of the elements that compare equal to it. */
  function Insert(x: Provider, s: seq<Provider>): seq<Provider> {
    if s == [] || Precedes(x, s[0]) then [x] + s
    else [s[0]] + Insert(x, s[1..])
  }

  lemma {:induction false} InsertPermutes(x: Provider, s: seq<Provider>)
    ensures multiset(Insert(x, s)) == multiset(s) + multiset{x}
  {
    if s != [] && !Precedes(x, s[0]) {
      InsertPermutes(x, s[1..]);
      assert s == [s[0]] + s[1..];
    }
  }

  lemma {:induction false} InsertKeepsSorted(x: Provider, s: seq<Provider>)
    requires SortedByBaseOrder(s)
    ensures SortedByBaseOrder(Insert(x, s))
  {
    if s == [] {
    } else if Precedes(x, s[0]) {
      forall y | y in s ensures Precedes(x, y) {
        var j :| 0 <= j < |s| && s[j] == y;
        if j > 0 { PrecedesTransitive(x, s[0], s[j]); }
      }
      SortedCons(x, s);
    } else {
      var rest := Insert(x, s[1..]);
      InsertKeepsSorted(x, s[1..]);
      InsertPermutes(x, s[1..]);
      PrecedesTotal(x, s[0]);
      forall y | y in rest ensures Precedes(s[0], y) {
        assert y in multiset(rest);
        if y != x {
          assert y in multiset(s[1..]);
          var j :| 0 <= j < |s[1..]| && s[1..][j] == y;
          assert s[j + 1] == y;
        }
      }
      SortedCons(s[0], rest);
    }
  }

  /** A sorted list stays sorted behind a head that may precede all of it. */
  lemma SortedCons(h: Provider, t: seq<Provider>)
    requires SortedByBaseOrder(t)
    requires forall y :: y in t ==> Precedes(h, y)
    ensures SortedByBaseOrder([h] + t)
  {
    var r := [h] + t;
    forall i, j | 0 <= i < j < |r| ensures Precedes(r[i], r[j]) {
      assert r[j] == t[j - 1];
      if i > 0 {
        assert r[i] == t[i - 1];
      }
    }
  }

  /** `sortProvidersByBaseOrder`: a sorted copy, ordered by `Precedes`. */
  function SortByBaseOrder(ps: seq<Provider>): (r: seq<Provider>)
    ensures multiset(r) == multiset(ps)
    ensures SortedByBaseOrder(r)
  {
    if ps == [] then []
    else
      var rest := SortByBaseOrder(ps[1..]);
      InsertPermutes(ps[0], rest);
      InsertKeepsSorted(ps[0], rest);
      assert ps == [ps[0]] + ps[1..];
      Insert(ps[0], rest)
  }

  /** In the display order no temporary provider stands before a built-in
      one, built-in providers follow the built-in order, and temporary
      providers run from the newest to the oldest. */
  lemma BaseProvidersListedFirst(ps: seq<Provider>, i: nat, j: nat)
    requires i < j < |SortByBaseOrder(ps)|
    ensures SortByBaseOrder(ps)[j].isBase ==> SortByBaseOrder(ps)[i].isBase
    ensures !SortByBaseOrder(ps)[i].isBase ==>
              SortByBaseOrder(ps)[i].id >= SortByBaseOrder(ps)[j].id
    ensures SortByBaseOrder(ps)[i].isBase && SortByBaseOrder(ps)[j].isBase ==>
              BaseOrder(SortByBaseOrder(ps)[i].name) <= BaseOrder(SortByBaseOrder(ps)[j].name)
  {
    var r := SortByBaseOrder(ps);
    assert Precedes(r[i], r[j]);
  }
}
