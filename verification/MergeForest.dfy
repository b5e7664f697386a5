/**
 The merge pointers between people and what is counted through them
 (backend/app/people/merge.py and the same walk in backend/app/models/attendance.py).
 */
module MergeForest {
  import opened Basics
  import opened Attendance

  type Merges = map<Uuid, Uuid>

  datatype MergeError =
    | SamePerson | SurvivorNotFound | DuplicateNotFound | SurvivorMerged | DuplicateMerged
    | CycleDetected

  // ---------------------------------------------------------------------------------------------
  // Following the pointers

  /** Where `n` pointers lead from `x`; a person without a pointer stays put. */
  function Follow(m: Merges, x: Uuid, n: nat): Uuid {
    if n == 0 then x
    else
      var y := Follow(m, x, n - 1);
      if y in m then m[y] else y
  }

  ghost predicate Reaches(m: Merges, x: Uuid) {
    exists n :: Follow(m, x, n) !in m
  }

  ghost predicate Acyclic(m: Merges) {
    forall x :: Reaches(m, x)
  }

  /** The person `x` stands for: the end of its pointers, if they end. */
  ghost function Root(m: Merges, x: Uuid): Option<Uuid> {
    if Reaches(m, x) then
      var n :| Follow(m, x, n) !in m;
      Some(Follow(m, x, n))
    else None
  }

  lemma {:induction false} RootsStay(m: Merges, x: Uuid, n: nat, k: nat)
    requires n <= k && Follow(m, x, n) !in m
    ensures Follow(m, x, k) == Follow(m, x, n)
  {
    if n < k {
      RootsStay(m, x, n, k - 1);
    }
  }

  lemma RootIs(m: Merges, x: Uuid, n: nat)
    requires Follow(m, x, n) !in m
    ensures Root(m, x) == Some(Follow(m, x, n))
  {
    var k :| Follow(m, x, k) !in m && Root(m, x) == Some(Follow(m, x, k));
    if n <= k {
      RootsStay(m, x, n, k);
    } else {
      RootsStay(m, x, k, n);
    }
  }

  /** Once the walk meets a person twice it only ever meets the same people again. */
  lemma {:induction false} CyclesNeverEnd(m: Merges, x: Uuid, j: nat, n: nat, k: nat)
    requires j < n && Follow(m, x, j) == Follow(m, x, n)
    requires forall i | 0 <= i < n :: Follow(m, x, i) in m
    ensures exists i | 0 <= i < n :: Follow(m, x, k) == Follow(m, x, i)
  {
    if k < n {
      assert Follow(m, x, k) == Follow(m, x, k);
    } else {
      CyclesNeverEnd(m, x, j, n, k - 1);
      var i :| 0 <= i < n && Follow(m, x, k - 1) == Follow(m, x, i);
      assert Follow(m, x, k) == Follow(m, x, i + 1);
      assert Follow(m, x, k) == Follow(m, x, if i + 1 < n then i + 1 else j);
    }
  }

  /** Returns the root, and raises exactly when there is none; it terminates on every map, cyclic or not. */
  method CanonicalPersonId(personId: Option<Uuid>, mergedInto: Merges) returns (r: Result<Option<Uuid>, MergeError>)
    ensures personId.None? ==> r == Ok(None)
    ensures personId.Some? ==>
              match Root(mergedInto, personId.value) {
                case Some(root) => r == Ok(Some(root))
                case None => r == Err(CycleDetected)
              }
  {
    if personId.None? {
      return Ok(None);
    }
    var seen: set<Uuid> := {};
    var current := personId.value;
    ghost var x, n: nat := personId.value, 0;
    while current in mergedInto
      invariant current == Follow(mergedInto, x, n)
      invariant forall i | 0 <= i < n :: Follow(mergedInto, x, i) in mergedInto
      invariant forall y | y in seen :: y in mergedInto && exists i | 0 <= i < n :: Follow(mergedInto, x, i) == y
      decreases mergedInto.Keys - seen
    {
      if current in seen {
        ghost var j :| 0 <= j < n && Follow(mergedInto, x, j) == current;
        forall k: nat
          ensures Follow(mergedInto, x, k) in mergedInto
        {
          CyclesNeverEnd(mergedInto, x, j, n, k);
        }
        return Err(CycleDetected);
      }
      seen := seen + {current};
      assert Follow(mergedInto, x, n) == current;
      current := mergedInto[current];
      n := n + 1;
    }
    RootIs(mergedInto, x, n);
    return Ok(Some(current));
  }

  // ---------------------------------------------------------------------------------------------
  // Merging

  /** A merge of `duplicate` into `survivor` is refused unless both are still their own roots. */
  predicate MayMerge(m: Merges, survivor: Uuid, duplicate: Uuid) {
    survivor != duplicate && survivor !in m && duplicate !in m
  }

  function Merged(m: Merges, survivor: Uuid, duplicate: Uuid): Merges {
    m[duplicate := survivor]
  }

  lemma {:induction false} PathBeforeRootIsKept(m: Merges, s: Uuid, d: Uuid, x: Uuid, n: nat)
    requires d !in m && (n == 0 || Follow(m, x, n - 1) in m)
    ensures Follow(Merged(m, s, d), x, n) == Follow(m, x, n)
  {
    if n > 0 {
      PathBeforeRootIsKept(m, s, d, x, n - 1);
    }
  }

  lemma {:induction false} MergeRedirectsFrom(m: Merges, s: Uuid, d: Uuid, x: Uuid, n: nat)
    requires MayMerge(m, s, d) && Follow(m, x, n) !in m
    ensures Reaches(Merged(m, s, d), x)
    ensures Root(Merged(m, s, d), x) == Some(if Follow(m, x, n) == d then s else Follow(m, x, n))
  {
    if n > 0 && Follow(m, x, n - 1) !in m {
      MergeRedirectsFrom(m, s, d, x, n - 1);
    } else {
      PathBeforeRootIsKept(m, s, d, x, n);
      var m' := Merged(m, s, d);
      if Follow(m, x, n) == d {
        assert Follow(m', x, n + 1) == s;
        RootIs(m', x, n + 1);
      } else {
        RootIs(m', x, n);
      }
    }
  }

  /** A merge redirects exactly the people who stood for the duplicate, and creates no cycle. */
  lemma MergeRedirects(m: Merges, s: Uuid, d: Uuid)
    requires Acyclic(m) && MayMerge(m, s, d)
    ensures Acyclic(Merged(m, s, d))
    ensures forall x :: Root(Merged(m, s, d), x) == if Root(m, x) == Some(d) then Some(s) else Root(m, x)
  {
    forall x
      ensures Reaches(Merged(m, s, d), x)
      ensures Root(Merged(m, s, d), x) == if Root(m, x) == Some(d) then Some(s) else Root(m, x)
    {
      assert Reaches(m, x);
      var n :| Follow(m, x, n) !in m;
      RootIs(m, x, n);
      MergeRedirectsFrom(m, s, d, x, n);
    }
  }

  /** The pointers after a run of requests, refused ones included. */
  function MergeRun(requests: seq<(Uuid, Uuid)>): Merges {
    if requests == [] then map[]
    else
      var m, (s, d) := MergeRun(requests[..|requests| - 1]), requests[|requests| - 1];
      if MayMerge(m, s, d) then Merged(m, s, d) else m
  }

  lemma EmptyIsAcyclic()
    ensures Acyclic(map[])
  {
    var none: Merges := map[];
    forall x
      ensures Reaches(none, x)
    {
      assert Follow(none, x, 0) !in none;
    }
  }

  /** No run of merges ever closes a cycle, so every person always stands for somebody unmerged. */
  lemma {:induction false} RunsStayAcyclic(requests: seq<(Uuid, Uuid)>, x: Uuid)
    ensures Acyclic(MergeRun(requests))
    ensures var root := Root(MergeRun(requests), x); root.Some? && root.value !in MergeRun(requests)
  {
    if requests == [] {
      EmptyIsAcyclic();
    } else {
      var init := requests[..|requests| - 1];
      RunsStayAcyclic(init, x);
      var (s, d) := requests[|requests| - 1];
      if MayMerge(MergeRun(init), s, d) {
        MergeRedirects(MergeRun(init), s, d);
      }
    }
    assert Reaches(MergeRun(requests), x);
  }

  // ---------------------------------------------------------------------------------------------
  // Attendance totals

  /** Who each event id counts for: the person on its first row that has one. */
  function Owners(events: seq<Event>): map<int, Uuid> {
    if events == [] then map[]
    else
      var owners, e := Owners(events[..|events| - 1]), events[|events| - 1];
      if e.id in owners || e.personId.None? then owners else owners[e.id := e.personId.value]
  }

  predicate OwnsFirst(events: seq<Event>, id: int, k: nat) {
    && k < |events| && events[k].id == id && events[k].personId.Some?
    && forall i | 0 <= i < k && events[i].id == id :: events[i].personId.None?
  }

  lemma {:induction false} OwnersMean(events: seq<Event>, id: int)
    ensures id in Owners(events) <==> exists k: nat :: OwnsFirst(events, id, k)
    ensures forall k: nat :: OwnsFirst(events, id, k) ==>
                               id in Owners(events) && Owners(events)[id] == events[k].personId.value
  {
    if events != [] {
      var rest, last := events[..|events| - 1], |events| - 1;
      OwnersMean(rest, id);
      assert forall i | 0 <= i < last :: events[i] == rest[i];
      assert forall k: nat | k < last :: OwnsFirst(events, id, k) <==> OwnsFirst(rest, id, k);
      if id in Owners(rest) {
        var k: nat :| OwnsFirst(rest, id, k);
        assert OwnsFirst(events, id, k) && !OwnsFirst(events, id, last);
      } else {
        assert events[last].id == id && events[last].personId.Some? ==> OwnsFirst(events, id, last) by {
          EarlierRowsAreOwnerless(rest, id);
        }
      }
    }
  }

  lemma {:induction false} EarlierRowsAreOwnerless(events: seq<Event>, id: int)
    requires id !in Owners(events)
    ensures forall i | 0 <= i < |events| && events[i].id == id :: events[i].personId.None?
  {
    if events != [] {
      var rest := events[..|events| - 1];
      EarlierRowsAreOwnerless(rest, id);
      assert forall i | 0 <= i < |rest| :: events[i] == rest[i];
    }
  }

  /** The walk to the root as one function of the person. */
  type Resolution = Uuid -> Option<Uuid>

  ghost function Resolving(m: Merges): Resolution {
    x => Root(m, x)
  }

  /** The event ids counted for `p`. */
  ghost function CountedFor(owners: map<int, Uuid>, root: Resolution, p: Uuid): set<int> {
    set id | id in owners && root(owners[id]) == Some(p)
  }

  ghost predicate AllResolve(owners: map<int, Uuid>, root: Resolution) {
    forall id | id in owners :: root(owners[id]).Some?
  }

  function CountOf(counts: map<Uuid, nat>, p: Uuid): nat {
    if p in counts then counts[p] else 0
  }

  /** `counts` holds exactly the people some events count for, with how many. */
  ghost predicate AreTotals(counts: map<Uuid, nat>, owners: map<int, Uuid>, root: Resolution) {
    && (forall p :: CountOf(counts, p) == |CountedFor(owners, root, p)|)
    && (forall p | p in counts :: counts[p] > 0)
  }

  lemma OneMoreCountedFor(owners: map<int, Uuid>, root: Resolution, id: int, owner: Uuid, q: Uuid)
    requires id !in owners
    ensures CountedFor(owners[id := owner], root, q)
         == CountedFor(owners, root, q) + if root(owner) == Some(q) then {id} else {}
  {
  }

  lemma OneMoreCounted(counts: map<Uuid, nat>, owners: map<int, Uuid>, root: Resolution, id: int, owner: Uuid, p: Uuid)
    requires AreTotals(counts, owners, root) && id !in owners && root(owner) == Some(p)
    ensures AreTotals(counts[p := CountOf(counts, p) + 1], owners[id := owner], root)
  {
    var counts' := counts[p := CountOf(counts, p) + 1];
    forall q
      ensures CountOf(counts', q) == |CountedFor(owners[id := owner], root, q)|
    {
      OneMoreCountedFor(owners, root, id, owner, q);
      assert id !in CountedFor(owners, root, q);
      assert CountOf(counts', q) == CountOf(counts, q) + if q == p then 1 else 0;
    }
  }

  method OwnerOf(p: Uuid, mergedInto: Merges, ghost root: Resolution) returns (r: Result<Uuid, MergeError>)
    requires root == Resolving(mergedInto)
    ensures r.Ok? <==> root(p).Some?
    ensures r.Ok? ==> root(p) == Some(r.value)
  {
    var personId := CanonicalPersonId(Some(p), mergedInto);
    return match personId case Ok(q) => Ok(q.value) case Err(e) => Err(e);
  }

  /** The state of the count after the first `i` events. */
  ghost predicate IsCounted(counts: map<Uuid, nat>, counted: set<int>, events: seq<Event>, i: nat, root: Resolution)
    requires i <= |events|
  {
    var owners := Owners(events[..i]);
    counted == owners.Keys && AllResolve(owners, root) && AreTotals(counts, owners, root)
  }

  lemma SkippingCounts(counts: map<Uuid, nat>, counted: set<int>, events: seq<Event>, i: nat, root: Resolution)
    requires i < |events| && IsCounted(counts, counted, events, i, root)
    requires events[i].id in counted || events[i].personId.None?
    ensures IsCounted(counts, counted, events, i + 1, root)
  {
    OwnersStep(events, i);
  }

  lemma AddingCounts(counts: map<Uuid, nat>, counted: set<int>, events: seq<Event>, i: nat, root: Resolution, p: Uuid)
    requires i < |events| && IsCounted(counts, counted, events, i, root)
    requires events[i].id !in counted && events[i].personId.Some? && root(events[i].personId.value) == Some(p)
    ensures IsCounted(counts[p := CountOf(counts, p) + 1], counted + {events[i].id}, events, i + 1, root)
  {
    OwnersStep(events, i);
    OneMoreCounted(counts, Owners(events[..i]), root, events[i].id, events[i].personId.value, p);
  }

  method AttendanceTotals(events: seq<Event>, mergedInto: Merges) returns (r: Result<map<Uuid, nat>, MergeError>)
    ensures r.Ok? <==> AllResolve(Owners(events), Resolving(mergedInto))
    ensures r.Ok? ==> AreTotals(r.value, Owners(events), Resolving(mergedInto))
  {
    var counts: map<Uuid, nat> := map[];
    var counted: set<int> := {};
    ghost var root := Resolving(mergedInto);
    NothingCounted(root);
    for i := 0 to |events|
      invariant IsCounted(counts, counted, events, i, root)
    {
      var event := events[i];
      if event.id in counted || event.personId.None? {
        SkippingCounts(counts, counted, events, i, root);
        continue;
      }
      var personId := OwnerOf(event.personId.value, mergedInto, root);
      if personId.Err? {
        Unresolved(events, i, root);
        return Err(personId.error);
      }
      var p := personId.value;
      AddingCounts(counts, counted, events, i, root, p);
      counted := counted + {event.id};
      counts := counts[p := CountOf(counts, p) + 1];
    }
    assert events[..|events|] == events;
    return Ok(counts);
  }

  lemma NothingCounted(root: Resolution)
    ensures AreTotals(map[], map[], root)
  {
  }

  lemma OwnersStep(events: seq<Event>, i: nat)
    requires i < |events|
    ensures var owners, e := Owners(events[..i]), events[i];
            Owners(events[..i + 1]) ==
            if e.id in owners || e.personId.None? then owners else owners[e.id := e.personId.value]
  {
    assert events[..i + 1][..i] == events[..i];
  }

  lemma Unresolved(events: seq<Event>, i: nat, root: Resolution)
    requires i < |events| && events[i].id !in Owners(events[..i])
    requires events[i].personId.Some? && root(events[i].personId.value).None?
    ensures !AllResolve(Owners(events), root)
  {
    assert events[..i + 1][..i] == events[..i];
    OwnersGrow(events, i + 1);
    assert Owners(events[..i + 1])[events[i].id] == events[i].personId.value;
  }

  lemma {:induction false} OwnersGrow(events: seq<Event>, n: nat)
    requires n <= |events|
    ensures forall id | id in Owners(events[..n]) ::
              id in Owners(events) && Owners(events)[id] == Owners(events[..n])[id]
    decreases |events| - n
  {
    if n < |events| {
      OwnersGrow(events, n + 1);
      assert events[..n + 1][..n] == events[..n];
    } else {
      assert events[..n] == events;
    }
  }

  /** A merge moves the duplicate's total onto the survivor and leaves everybody else's alone. */
  lemma MergeConservesTotals(before: map<Uuid, nat>, after: map<Uuid, nat>, owners: map<int, Uuid>, m: Merges,
                             s: Uuid, d: Uuid)
    requires Acyclic(m) && MayMerge(m, s, d)
    requires AreTotals(before, owners, Resolving(m)) && AreTotals(after, owners, Resolving(Merged(m, s, d)))
    ensures d !in after
    ensures CountOf(after, s) == CountOf(before, s) + CountOf(before, d)
    ensures forall p | p != s && p != d :: CountOf(after, p) == CountOf(before, p)
  {
    MergeRedirects(m, s, d);
    RedirectionMovesTotals(before, after, owners, Resolving(m), Resolving(Merged(m, s, d)), s, d);
  }

  lemma RedirectionMovesTotals(before: map<Uuid, nat>, after: map<Uuid, nat>, owners: map<int, Uuid>,
                               root: Resolution, root': Resolution, s: Uuid, d: Uuid)
    requires s != d && forall x :: root'(x) == if root(x) == Some(d) then Some(s) else root(x)
    requires AreTotals(before, owners, root) && AreTotals(after, owners, root')
    ensures d !in after
    ensures CountOf(after, s) == CountOf(before, s) + CountOf(before, d)
    ensures forall p | p != s && p != d :: CountOf(after, p) == CountOf(before, p)
  {
    assert CountedFor(owners, root', d) == {};
    assert CountOf(after, d) == 0;
    var ofS, ofD := CountedFor(owners, root, s), CountedFor(owners, root, d);
    assert CountedFor(owners, root', s) == ofS + ofD && ofS * ofD == {};
    forall p | p != s && p != d
      ensures CountOf(after, p) == CountOf(before, p)
    {
      assert CountedFor(owners, root', p) == CountedFor(owners, root, p);
    }
  }

  ghost function Sum(counts: map<Uuid, nat>): nat
    decreases |counts|
  {
    if counts == map[] then 0
    else
      var p :| p in counts;
      counts[p] + Sum(counts - {p})
  }

  lemma {:induction false} SumWithout(counts: map<Uuid, nat>, p: Uuid)
    requires p in counts
    ensures Sum(counts) == counts[p] + Sum(counts - {p})
    decreases |counts|
  {
    var q :| q in counts && Sum(counts) == counts[q] + Sum(counts - {q});
    if p != q {
      SumWithout(counts - {q}, p);
      SumWithout(counts - {p}, q);
      assert counts - {p} - {q} == counts - {q} - {p};
    }
  }

  /** The totals add up to the number of distinct event ids that have a person at all. */
  lemma {:induction false} TotalsAddUp(counts: map<Uuid, nat>, owners: map<int, Uuid>, root: Resolution)
    requires AllResolve(owners, root) && AreTotals(counts, owners, root)
    ensures Sum(counts) == |owners|
    decreases |counts|
  {
    if counts == map[] {
      NobodyCounted(counts, owners, root);
    } else {
      var p :| p in counts;
      var mine := CountedFor(owners, root, p);
      WithoutOne(counts, owners, root, p);
      TotalsAddUp(counts - {p}, owners - mine, root);
      SumWithout(counts, p);
      assert CountOf(counts, p) == |mine|;
      assert owners.Keys == (owners - mine).Keys + mine;
      assert |owners.Keys| == |(owners - mine).Keys| + |mine|;
    }
  }

  lemma NobodyCounted(counts: map<Uuid, nat>, owners: map<int, Uuid>, root: Resolution)
    requires counts == map[] && AllResolve(owners, root) && AreTotals(counts, owners, root)
    ensures owners == map[]
  {
    forall p
      ensures CountedFor(owners, root, p) == {}
    {
      assert CountOf(counts, p) == |CountedFor(owners, root, p)|;
    }
    assert forall id | id in owners :: id in CountedFor(owners, root, root(owners[id]).value);
  }

  lemma WithoutOne(counts: map<Uuid, nat>, owners: map<int, Uuid>, root: Resolution, p: Uuid)
    requires AllResolve(owners, root) && AreTotals(counts, owners, root)
    ensures var rest := owners - CountedFor(owners, root, p);
            AllResolve(rest, root) && AreTotals(counts - {p}, rest, root)
  {
    var rest := owners - CountedFor(owners, root, p);
    forall q
      ensures CountOf(counts - {p}, q) == |CountedFor(rest, root, q)|
    {
      assert CountOf(counts, q) == |CountedFor(owners, root, q)|;
      assert CountedFor(rest, root, q) == if q == p then {} else CountedFor(owners, root, q);
    }
  }
}
