/**
 Keeping every worker's in-memory gallery in step with the database (backend/app/face/gallery.py).

 The first half is one worker: a version state and an index. The second half runs any number of workers
 against one database, an enrolment being several separate steps between which other workers may act.
 */
module Gallery {
  import opened Basics
  import opened Matcher
  import opened Rankings

  // ---------------------------------------------------------------------------------------------
  // One worker

  datatype Worker = Worker(required: nat, loaded: nat, version: nat, entries: seq<GalleryEntry>)

  const FRESH := Worker(1, 0, 0, [])

  function Added(w: Worker, entry: GalleryEntry): Worker {
    var v := w.required + 1;
    Worker(v, Max(w.loaded, v), v, w.entries + [entry])
  }

  /** The check of `reload_if_stale`. */
  predicate IsStale(w: Worker, dbVersion: nat) {
    w.version < Max(w.required, dbVersion)
  }

  function Reloaded(w: Worker, dbVersion: nat, rows: seq<GalleryEntry>): Worker {
    var required := Max(w.required, dbVersion);
    if !IsStale(w, dbVersion) then w.(required := required)
    else Worker(required, Max(w.loaded, required), Max(w.loaded, required), rows)
  }

  class GalleryVersionState {
    var required: nat
    var loaded: nat

    constructor ()
      ensures required == 1 && loaded == 0
    {
      required, loaded := 1, 0;
    }

    method BumpRequiredVersion() returns (v: nat)
      modifies this`required
      ensures v == required == old(required) + 1
    {
      required := required + 1;
      return required;
    }

    /** A version below one is an error and changes nothing. */
    method ObserveRequiredVersion(version: int) returns (r: Result<nat, string>)
      modifies this`required
      ensures version < 1 ==> r.Err? && required == old(required)
      ensures version >= 1 ==> r == Ok(required) && required == Max(old(required), version)
    {
      if version < 1 {
        return Err("gallery version must be positive");
      }
      required := Max(required, version);
      return Ok(required);
    }

    method MarkLoaded(version: Option<nat>) returns (v: nat)
      modifies this`loaded
      ensures v == loaded == Max(old(loaded), if version.None? then required else version.value)
    {
      var target := if version.None? then required else version.value;
      loaded := Max(loaded, target);
      return loaded;
    }
  }

  class GalleryIndex {
    const state: GalleryVersionState
    var vectors: seq<Vector>
    var personIds: seq<Uuid>
    var embeddingIds: seq<Uuid>
    var version: nat

    predicate Valid()
      reads this
    {
      |vectors| == |personIds| == |embeddingIds|
    }

    function Contents(): seq<GalleryEntry>
      requires Valid()
      reads this
    {
      seq(|vectors|, i requires 0 <= i < |vectors| reads this requires Valid() =>
        GalleryEntry(personIds[i], embeddingIds[i], vectors[i]))
    }

    function Snapshot(): Worker
      requires Valid()
      reads this, state
    {
      Worker(state.required, state.loaded, version, Contents())
    }

    constructor (state: GalleryVersionState)
      ensures this.state == state && Valid() && version == 0 && Contents() == []
    {
      this.state := state;
      vectors, personIds, embeddingIds, version := [], [], [], 0;
    }

    method Load(entries: seq<GalleryEntry>, newVersion: Option<nat>)
      modifies this, state`loaded
      ensures Valid() && Contents() == entries
      ensures version == state.loaded ==
              Max(old(state.loaded), if newVersion.None? then state.required else newVersion.value)
    {
      var loadedVectors, people, embeddings := [], [], [];
      for i := 0 to |entries|
        invariant |loadedVectors| == |people| == |embeddings| == i
        invariant forall j | 0 <= j < i :: GalleryEntry(people[j], embeddings[j], loadedVectors[j]) == entries[j]
      {
        loadedVectors := loadedVectors + [entries[i].vector];
        people := people + [entries[i].personId];
        embeddings := embeddings + [entries[i].embeddingId];
      }
      var loadedVersion := state.MarkLoaded(newVersion);
      vectors, personIds, embeddingIds := loadedVectors, people, embeddings;
      version := loadedVersion;
    }

    method Add(entry: GalleryEntry) returns (v: nat)
      requires Valid()
      modifies this, state
      ensures Valid() && Snapshot() == Added(old(Snapshot()), entry) && v == version
    {
      vectors := vectors + [entry.vector];
      personIds := personIds + [entry.personId];
      embeddingIds := embeddingIds + [entry.embeddingId];
      version := state.BumpRequiredVersion();
      var _ := state.MarkLoaded(Some(version));
      v := version;
      assert Contents() == old(Contents()) + [entry];
    }

    /** `stored` is the durable counter's row, if there is one; `rows` is what the loader reads. */
    method ReloadIfStale(stored: Option<nat>, rows: seq<GalleryEntry>) returns (reloaded: bool)
      requires Valid()
      modifies this, state
      ensures Valid()
      ensures stored.Some? && stored.value > 0 ==>
                && Snapshot() == Reloaded(old(Snapshot()), stored.value, rows)
                && (reloaded <==> old(version) < Max(old(state.required), stored.value))
      ensures stored.None? || stored.value == 0 ==>
                && Snapshot() == Reloaded(old(Snapshot()), 1, rows)
                && (reloaded <==> old(version) < Max(old(state.required), 1))
    {
      var observed := state.ObserveRequiredVersion(CurrentVersion(stored));
      var requiredVersion := state.required;
      if version >= requiredVersion {
        return false;
      }
      Load(rows, Some(requiredVersion));
      return true;
    }
  }

  /** `scalar_one_or_none() or 1`. */
  function CurrentVersion(stored: Option<nat>): (v: nat)
    ensures v >= 1
  {
    if stored.None? || stored.value == 0 then 1 else stored.value
  }

  // ---------------------------------------------------------------------------------------------
  // Many workers, one database

  /**
   `pending[w]` are the entries worker `w` has committed as rows but not yet bumped and added. `strays[w]` is history:
   the entries `w` has added since it last loaded that were no rows when it added them.
   */
  datatype Cluster = Cluster(
    dbVersion: nat,
    rows: set<GalleryEntry>,
    workers: seq<Worker>,
    pending: seq<seq<GalleryEntry>>,
    strays: seq<set<GalleryEntry>>)

  datatype Step =
    | CommitRows(w: nat, batch: seq<GalleryEntry>)             // enrolment: rows committed, version untouched
    | BumpAndAdd(w: nat)                                       // enrolment: bump, then add the next entry locally
    | Rewrite(rows: set<GalleryEntry>)                         // delete, erase or merge: new rows and a bump
    | Reload(w: nat, listing: seq<GalleryEntry>)               // reload_if_stale, on any worker at any time
    | Restart(w: nat)                                          // a fresh process

  function Start(n: nat): Cluster {
    Cluster(1, {}, seq(n, _ => FRESH), seq(n, _ => []), seq(n, _ => {}))
  }

  predicate WellSized(c: Cluster) {
    |c.workers| == |c.pending| == |c.strays|
  }

  function Pending(c: Cluster): set<GalleryEntry> {
    set w: nat, e | w < |c.pending| && e in c.pending[w] :: e
  }

  /** A step that can happen: the loader reads committed rows, and a restart does not cut an enrolment in two. */
  predicate Possible(c: Cluster, s: Step) {
    && WellSized(c)
    && match s
       case CommitRows(w, _) => w < |c.workers|
       case BumpAndAdd(w) => w < |c.workers| && c.pending[w] != []
       case Rewrite(_) => true
       case Reload(w, listing) => w < |c.workers| && Entries(listing) == c.rows
       case Restart(w) => w < |c.workers| && c.pending[w] == []
  }

  function Next(c: Cluster, s: Step): (c': Cluster)
    requires Possible(c, s)
    ensures WellSized(c') && |c'.workers| == |c.workers|
  {
    match s
    case CommitRows(w, batch) =>
      c.(rows := c.rows + Entries(batch), pending := c.pending[w := c.pending[w] + batch])
    case BumpAndAdd(w) =>
      var e := c.pending[w][0];
      Cluster(c.dbVersion + 1, c.rows, c.workers[w := Added(c.workers[w], e)], c.pending[w := c.pending[w][1..]],
              if e in c.rows then c.strays else c.strays[w := c.strays[w] + {e}])
    case Rewrite(rows) =>
      c.(dbVersion := c.dbVersion + 1, rows := rows)
    case Reload(w, listing) =>
      c.(workers := c.workers[w := Reloaded(c.workers[w], c.dbVersion, listing)],
      strays := if IsStale(c.workers[w], c.dbVersion) then c.strays[w := {}] else c.strays)
    case Restart(w) =>
      c.(workers := c.workers[w := FRESH], strays := c.strays[w := {}])
  }

  ghost predicate Runs(c: Cluster, steps: seq<Step>, end: Cluster)
    decreases |steps|
  {
    if steps == [] then c == end
    else Possible(c, steps[0]) && Runs(Next(c, steps[0]), steps[1..], end)
  }

  /** A worker that believes itself current holds every announced row, and besides rows only its own strays. */
  predicate WorkerAgrees(c: Cluster, i: nat)
    requires WellSized(c) && i < |c.workers|
  {
    var w := c.workers[i];
    && w.version == w.loaded <= w.required <= c.dbVersion
    && 1 <= w.required
    && c.strays[i] <= Entries(w.entries)
    && (w.required == c.dbVersion ==>
          c.rows - Pending(c) <= Entries(w.entries) <= c.rows + c.strays[i])
  }

  predicate Invariant(c: Cluster) {
    && WellSized(c)
    && 1 <= c.dbVersion
    && (c.dbVersion == 1 ==> c.rows <= Pending(c))
    && forall i | 0 <= i < |c.workers| :: WorkerAgrees(c, i)
  }

  lemma StartIsGood(n: nat)
    ensures Invariant(Start(n))
  {
  }

  lemma PendingAfterCommit(c: Cluster, w: nat, batch: seq<GalleryEntry>)
    requires Possible(c, CommitRows(w, batch))
    ensures Pending(Next(c, CommitRows(w, batch))) == Pending(c) + Entries(batch)
  {
    var c' := Next(c, CommitRows(w, batch));
    forall e | e in Pending(c) + Entries(batch)
      ensures e in Pending(c')
    {
      if e in Entries(batch) {
        assert e in c'.pending[w];
      } else {
        var v: nat :| v < |c.pending| && e in c.pending[v];
        assert e in c'.pending[v];
      }
    }
  }

  lemma PendingAfterAdd(c: Cluster, w: nat)
    requires Possible(c, BumpAndAdd(w))
    ensures var p, p' := Pending(c), Pending(Next(c, BumpAndAdd(w)));
            && p - {c.pending[w][0]} <= p' <= p
            && c.pending[w][0] in p
  {
    var c' := Next(c, BumpAndAdd(w));
    assert c.pending[w] == [c.pending[w][0]] + c.pending[w][1..];
    assert c.pending[w][0] in c.pending[w];
    forall e | e in Pending(c) - {c.pending[w][0]}
      ensures e in Pending(c')
    {
      var v: nat :| v < |c.pending| && e in c.pending[v];
      assert e in c'.pending[v];
    }
    forall e | e in Pending(c')
      ensures e in Pending(c)
    {
      var v: nat :| v < |c'.pending| && e in c'.pending[v];
      assert e in c.pending[v];
    }
  }

  lemma StepKeepsInvariant(c: Cluster, s: Step)
    requires Invariant(c) && Possible(c, s)
    ensures Invariant(Next(c, s))
  {
    var c' := Next(c, s);
    match s {
      case CommitRows(w, batch) =>
        PendingAfterCommit(c, w, batch);
      case BumpAndAdd(w) =>
        PendingAfterAdd(c, w);
        AddKeepsAgreement(c, w);
      case Rewrite(rows) =>
        assert Pending(c') == Pending(c);
      case Reload(w, listing) =>
        assert Pending(c') == Pending(c);
        assert WorkerAgrees(c, w);
      case Restart(w) =>
        assert Pending(c') == Pending(c);
    }
    forall i | 0 <= i < |c'.workers|
      ensures WorkerAgrees(c', i)
    {
      assert WorkerAgrees(c, i);
    }
  }

  lemma AddKeepsAgreement(c: Cluster, w: nat)
    requires Invariant(c) && Possible(c, BumpAndAdd(w))
    ensures var c' := Next(c, BumpAndAdd(w)); WorkerAgrees(c', w)
  {
    var c', e := Next(c, BumpAndAdd(w)), c.pending[w][0];
    PendingAfterAdd(c, w);
    assert WorkerAgrees(c, w);
    assert Entries(c'.workers[w].entries) == Entries(c.workers[w].entries) + {e};
  }

  /** The invariant holds in every state any run can reach, with any number of workers. */
  lemma {:induction false} EveryRunKeepsInvariant(c: Cluster, steps: seq<Step>, end: Cluster)
    requires Invariant(c) && Runs(c, steps, end)
    ensures Invariant(end)
    decreases |steps|
  {
    if steps != [] {
      StepKeepsInvariant(c, steps[0]);
      EveryRunKeepsInvariant(Next(c, steps[0]), steps[1..], end);
    }
  }

  /**
   Right after `reload_if_stale`, with no enrolment under way, a worker holds the database's entries and its strays, and
   nothing else: exactly the database's entries if and only if every stray is a row again.
   */
  lemma ReloadSynchronises(n: nat, steps: seq<Step>, c: Cluster, w: nat, listing: seq<GalleryEntry>)
    requires Runs(Start(n), steps, c)
    requires Possible(c, Reload(w, listing)) && Pending(c) == {}
    ensures var c' := Next(c, Reload(w, listing));
            var worker := c'.workers[w];
            && worker.version == worker.required == c.dbVersion
            && Entries(worker.entries) == c.rows + c'.strays[w]
            && (Entries(worker.entries) == c.rows <==> c'.strays[w] <= c.rows)
  {
    StartIsGood(n);
    EveryRunKeepsInvariant(Start(n), steps, c);
    assert WorkerAgrees(c, w);
  }

  /** A reload that really loads leaves no stray. */
  lemma LoadingForgetsStrays(c: Cluster, w: nat, listing: seq<GalleryEntry>)
    requires Possible(c, Reload(w, listing)) && IsStale(c.workers[w], c.dbVersion)
    ensures Next(c, Reload(w, listing)).strays[w] == {}
  {
  }

  /** So, if every stray is a row again, a scan on that worker is decided as a scan of the database itself would be. */
  lemma ScanAnswersAsTheDatabase(n: nat, steps: seq<Step>, c: Cluster, w: nat, listing: seq<GalleryEntry>,
                                 sim: Similarity, query: Vector, t: Thresholds, k: nat,
                                 ranking: seq<nat>, dbRanking: seq<nat>)
    requires Runs(Start(n), steps, c) && k >= 1
    requires Possible(c, Reload(w, listing)) && Pending(c) == {}
    requires Next(c, Reload(w, listing)).strays[w] <= c.rows
    requires var worker := Next(c, Reload(w, listing)).workers[w];
             IsRanking(ranking, Scores(sim, worker.entries, query)) && IsRanking(dbRanking, Scores(sim, listing, query))
    ensures var worker := Next(c, Reload(w, listing)).workers[w];
            Alike(Match(sim, worker.entries, query, t, ranking, k), Match(sim, listing, query, t, dbRanking, k), t)
  {
    ReloadSynchronises(n, steps, c, w, listing);
    var worker := Next(c, Reload(w, listing)).workers[w];
    MatchDependsOnTheSet(sim, worker.entries, listing, query, t, ranking, dbRanking, k, k);
  }

  /** And only if, as long as no two faces have the same vector: a stray answers some scan the database would not. */
  lemma ScansAgreeExactly(n: nat, steps: seq<Step>, c: Cluster, w: nat, listing: seq<GalleryEntry>)
    requires Runs(Start(n), steps, c)
    requires Possible(c, Reload(w, listing)) && Pending(c) == {}
    requires VectorsTellApart(Next(c, Reload(w, listing)).workers[w].entries)
    ensures var c' := Next(c, Reload(w, listing));
            AnswerAlike(c'.workers[w].entries, listing) <==> c'.strays[w] <= c.rows
  {
    ReloadSynchronises(n, steps, c, w, listing);
    AnswersAlikeExactly(Next(c, Reload(w, listing)).workers[w].entries, listing);
  }

  // Runs that leave no stray

  /** Rows that an unfinished enrolment still has to announce are left alone. */
  predicate SparesPending(c: Cluster, s: Step) {
    s.Rewrite? ==> Pending(c) <= s.rows
  }

  ghost predicate SparingRun(c: Cluster, steps: seq<Step>, end: Cluster)
    decreases |steps|
  {
    if steps == [] then c == end
    else Possible(c, steps[0]) && SparesPending(c, steps[0]) && SparingRun(Next(c, steps[0]), steps[1..], end)
  }

  predicate HasNoStrays(c: Cluster) {
    Pending(c) <= c.rows && forall w | 0 <= w < |c.strays| :: c.strays[w] == {}
  }

  lemma SparingKeepsNoStrays(c: Cluster, s: Step)
    requires HasNoStrays(c) && Possible(c, s) && SparesPending(c, s)
    ensures HasNoStrays(Next(c, s))
  {
    match s {
      case CommitRows(w, batch) =>
        PendingAfterCommit(c, w, batch);
      case BumpAndAdd(w) =>
        PendingAfterAdd(c, w);
      case Rewrite(_) =>
      case Reload(_, _) =>
        assert Pending(Next(c, s)) == Pending(c);
      case Restart(_) =>
        assert Pending(Next(c, s)) == Pending(c);
    }
  }

  lemma {:induction false} SparingRunsKeepNoStrays(c: Cluster, steps: seq<Step>, end: Cluster)
    requires HasNoStrays(c) && SparingRun(c, steps, end)
    ensures Runs(c, steps, end) && HasNoStrays(end)
    decreases |steps|
  {
    if steps != [] {
      SparingKeepsNoStrays(c, steps[0]);
      SparingRunsKeepNoStrays(Next(c, steps[0]), steps[1..], end);
    }
  }

  /** If no rewrite of the run drops a row that is still being enrolled, no worker ever has a stray. */
  lemma SparingRunsLeaveNoStrays(n: nat, steps: seq<Step>, c: Cluster, w: nat)
    requires SparingRun(Start(n), steps, c) && w < |c.strays|
    ensures Runs(Start(n), steps, c) && c.strays[w] == {}
  {
    SparingRunsKeepNoStrays(Start(n), steps, c);
  }

  // ---------------------------------------------------------------------------------------------
  // Why a rewrite must spare unfinished enrolments

  /** The rest of worker `w`'s enrolment, from just after a reload. */
  function Finish(c: Cluster, w: nat, k: nat): (end: Cluster)
    requires WellSized(c) && w < |c.workers| && k <= |c.pending[w]|
    ensures WellSized(end) && |end.workers| == |c.workers|
    decreases k
  {
    if k == 0 then c else Finish(Next(c, BumpAndAdd(w)), w, k - 1)
  }

  lemma {:induction false} FinishingAdds(c: Cluster, w: nat, k: nat)
    requires WellSized(c) && w < |c.workers| && k <= |c.pending[w]|
    requires c.workers[w].required == c.dbVersion
    ensures var end := Finish(c, w, k);
            && end.rows == c.rows
            && end.workers[w].required == end.dbVersion
            && (k > 0 ==> end.workers[w].version == end.dbVersion)
            && Entries(end.workers[w].entries) == Entries(c.workers[w].entries) + Entries(c.pending[w][..k])
    decreases k
  {
    if k > 0 {
      var next := Next(c, BumpAndAdd(w));
      FinishingAdds(next, w, k - 1);
      assert c.pending[w][..k] == [c.pending[w][0]] + next.pending[w][..k - 1];
      assert Entries(next.workers[w].entries) == Entries(c.workers[w].entries) + {c.pending[w][0]};
    }
  }

  /**
   A rewrite that drops a row still being enrolled on `w` always lets `w` end up claiming the database's version
   while it holds the dropped face: reload, then finish the enrolment.
   */
  lemma DroppedPendingRowComesBack(c: Cluster, w: nat, at: nat, rows: set<GalleryEntry>, listing: seq<GalleryEntry>)
    requires Invariant(c) && w < |c.workers| && at < |c.pending[w]|
    requires c.pending[w][at] !in rows && Entries(listing) == rows
    ensures var reloaded := Next(Next(c, Rewrite(rows)), Reload(w, listing));
            var end := Finish(reloaded, w, |c.pending[w]|);
            && end.workers[w].version == end.workers[w].required == end.dbVersion
            && c.pending[w][at] in Entries(end.workers[w].entries)
            && c.pending[w][at] !in end.rows
  {
    assert WorkerAgrees(c, w);
    var reloaded := Next(Next(c, Rewrite(rows)), Reload(w, listing));
    FinishingAdds(reloaded, w, |c.pending[w]|);
    assert c.pending[w][..|c.pending[w]|] == c.pending[w];
    assert c.pending[w][at] in Entries(c.pending[w]);
  }

  /** It happens: commit, a delete by another request, a reload, and the announcement of the deleted face. */
  lemma DroppedRowIsReachable(e: GalleryEntry)
    ensures exists end ::
              && Runs(Start(1), [CommitRows(0, [e]), Rewrite({}), Reload(0, []), BumpAndAdd(0)], end)
              && end == Cluster(3, {}, [Worker(3, 3, 3, [e])], [[]], [{e}])
  {
    var start, committed := Start(1), Cluster(1, {e}, [FRESH], [[e]], [{}]);
    var dropped, reloaded := Cluster(2, {}, [FRESH], [[e]], [{}]), Cluster(2, {}, [Worker(2, 2, 2, [])], [[e]], [{}]);
    var end := Cluster(3, {}, [Worker(3, 3, 3, [e])], [[]], [{e}]);
    assert start.pending[0] + [e] == [e];
    assert Next(start, CommitRows(0, [e])) == committed;
    assert Next(committed, Rewrite({})) == dropped;
    assert Next(dropped, Reload(0, [])) == reloaded;
    assert reloaded.pending[0][1..] == [] && reloaded.workers[0].entries + [e] == [e];
    assert Next(reloaded, BumpAndAdd(0)) == end;
    var steps := [CommitRows(0, [e]), Rewrite({}), Reload(0, []), BumpAndAdd(0)];
    assert steps[3..][1..] == [] && steps[2..][1..] == steps[3..] && steps[1..][1..] == steps[2..];
    assert Runs(reloaded, steps[3..], end);
    assert Runs(dropped, steps[2..], end);
    assert Runs(committed, steps[1..], end);
    assert Runs(start, steps, end);
  }
}
