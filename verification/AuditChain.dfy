/**
 The hash-chained audit log (backend/app/audit/chain.py and service.py).

 SHA-256 over canonical JSON is represented by a function `h` from an entry and the previous digest to a
 digest. Where collision resistance matters, a lemma asks for `Injective(h)`.
 */
module AuditChain {
  import opened Basics

  type Digest = nat

  datatype ActorKind = Admin | Device | System | Job

  datatype AuditEntry = AuditEntry(
    actorKind: ActorKind,
    actorId: Option<Uuid>,
    action: string,
    entityType: string,
    entityId: Option<string>,
    before: Option<string>,
    after: Option<string>,
    ipAddress: Option<string>,
    requestId: string,
    occurredAt: int)

  datatype AuditRow = AuditRow(id: nat, entry: AuditEntry, prevHash: Option<Digest>, hash: Digest)

  datatype ChainError = UnexpectedPreviousHash(id: nat) | HashMismatch(id: nat)

  type Hasher = (AuditEntry, Option<Digest>) -> Digest

  ghost predicate Injective(h: Hasher) {
    forall e1, p1, e2, p2 :: h(e1, p1) == h(e2, p2) ==> e1 == e2 && p1 == p2
  }

  function MakeAuditLog(h: Hasher, id: nat, entry: AuditEntry, prevHash: Option<Digest>): AuditRow {
    AuditRow(id, entry, prevHash, h(entry, prevHash))
  }

  // What a chain means, independently of the loop that checks it.

  predicate PointsBack(rows: seq<AuditRow>, i: nat)
    requires i < |rows|
  {
    i == 0 || rows[i].prevHash == Some(rows[i - 1].hash)
  }

  predicate Authentic(h: Hasher, row: AuditRow) {
    row.hash == h(row.entry, row.prevHash)
  }

  predicate LinkHolds(h: Hasher, rows: seq<AuditRow>, i: nat)
    requires i < |rows|
  {
    PointsBack(rows, i) && Authentic(h, rows[i])
  }

  ghost predicate Accepted(h: Hasher, rows: seq<AuditRow>) {
    forall i | 0 <= i < |rows| :: LinkHolds(h, rows, i)
  }

  /** The chain starts at the first row ever written. */
  predicate Anchored(rows: seq<AuditRow>) {
    rows != [] ==> rows[0].prevHash == None
  }

  function Head(rows: seq<AuditRow>): Option<Digest> {
    if rows == [] then None else Some(rows[|rows| - 1].hash)
  }

  function Entries(rows: seq<AuditRow>): seq<AuditEntry> {
    seq(|rows|, i requires 0 <= i < |rows| => rows[i].entry)
  }

  /** Row `i` is the first that breaks the chain, and `error` says how. */
  ghost predicate FirstBreak(h: Hasher, rows: seq<AuditRow>, i: nat, error: ChainError)
    requires i < |rows|
  {
    && (forall j | 0 <= j < i :: LinkHolds(h, rows, j))
    && !LinkHolds(h, rows, i)
    && error == if PointsBack(rows, i) then HashMismatch(rows[i].id) else UnexpectedPreviousHash(rows[i].id)
  }

  /** Accepts exactly the well-linked chains, and blames the first row that breaks one. */
  method VerifyAuditChain(h: Hasher, rows: seq<AuditRow>) returns (r: Result<Option<Digest>, ChainError>)
    ensures r.Ok? <==> Accepted(h, rows)
    ensures r.Ok? ==> r.value == Head(rows)
    ensures r.Err? ==> exists i | 0 <= i < |rows| :: FirstBreak(h, rows, i, r.error)
  {
    if rows == [] {
      return Ok(None);
    }
    var prevHash := rows[0].prevHash;
    for i := 0 to |rows|
      invariant forall j | 0 <= j < i :: LinkHolds(h, rows, j)
      invariant prevHash == if i == 0 then rows[0].prevHash else Some(rows[i - 1].hash)
    {
      var row := rows[i];
      if row.prevHash != prevHash {
        assert FirstBreak(h, rows, i, UnexpectedPreviousHash(row.id));
        return Err(UnexpectedPreviousHash(row.id));
      }
      if row.hash != h(row.entry, prevHash) {
        assert FirstBreak(h, rows, i, HashMismatch(row.id));
        return Err(HashMismatch(row.id));
      }
      prevHash := Some(row.hash);
    }
    return Ok(prevHash);
  }

  /** The persisted log. Rows are kept in id order; the advisory lock makes each append atomic. */
  class AuditLog {
    var rows: seq<AuditRow>

    constructor ()
      ensures rows == []
    {
      rows := [];
    }

    method LatestAuditHash() returns (r: Option<Digest>)
      ensures r == Head(rows)
    {
      r := if rows == [] then None else Some(rows[|rows| - 1].hash);
    }

    method AppendAuditEntry(h: Hasher, id: nat, entry: AuditEntry) returns (row: AuditRow)
      requires forall r | r in rows :: r.id < id
      modifies this
      ensures row == MakeAuditLog(h, id, entry, Head(old(rows)))
      ensures rows == old(rows) + [row] && row.id == id && row.entry == entry
      ensures old(Accepted(h, rows)) ==> Accepted(h, rows)
      ensures old(Anchored(rows)) ==> Anchored(rows)
    {
      var prevHash := LatestAuditHash();
      row := MakeAuditLog(h, id, entry, prevHash);
      AppendKeepsChain(h, rows, row);
      rows := rows + [row];
    }

    method AuditChainHead() returns (rowCount: nat, lastId: Option<nat>, headHash: Option<Digest>)
      ensures rowCount == |rows|
      ensures headHash == Head(rows)
      ensures lastId == if rows == [] then None else Some(rows[|rows| - 1].id)
    {
      rowCount := |rows|;
      if rows == [] {
        return 0, None, None;
      }
      var latest := rows[|rows| - 1];
      return rowCount, Some(latest.id), Some(latest.hash);
    }
  }

  lemma AppendKeepsChain(h: Hasher, rows: seq<AuditRow>, row: AuditRow)
    requires row.prevHash == Head(rows) && Authentic(h, row)
    ensures Accepted(h, rows) ==> Accepted(h, rows + [row])
    ensures Anchored(rows) ==> Anchored(rows + [row])
  {
    var longer := rows + [row];
    if Accepted(h, rows) {
      forall i | 0 <= i < |longer|
        ensures LinkHolds(h, longer, i)
      {
        if i < |rows| {
          assert LinkHolds(h, rows, i);
        }
      }
    }
  }

  // Whole runs: the log that a sequence of appends builds.

  function BuildLog(h: Hasher, entries: seq<AuditEntry>): seq<AuditRow> {
    if entries == [] then []
    else
      var rows := BuildLog(h, entries[..|entries| - 1]);
      rows + [MakeAuditLog(h, |rows|, entries[|entries| - 1], Head(rows))]
  }

  /** Every log that appends can build is accepted, and records exactly the entries appended, in order. */
  lemma {:induction false} BuiltLogsAreAccepted(h: Hasher, entries: seq<AuditEntry>)
    ensures var rows := BuildLog(h, entries);
            Accepted(h, rows) && Anchored(rows) && Entries(rows) == entries
  {
    if entries != [] {
      var shorter := entries[..|entries| - 1];
      BuiltLogsAreAccepted(h, shorter);
      var rows := BuildLog(h, shorter);
      var row := MakeAuditLog(h, |rows|, entries[|entries| - 1], Head(rows));
      AppendKeepsChain(h, rows, row);
      assert Entries(rows + [row]) == Entries(rows) + [row.entry];
      assert entries == shorter + [row.entry];
    }
  }

  /** Any contiguous slice of an accepted chain is accepted. */
  lemma SliceIsAccepted(h: Hasher, rows: seq<AuditRow>, lo: nat, hi: nat)
    requires Accepted(h, rows) && lo <= hi <= |rows|
    ensures Accepted(h, rows[lo..hi])
  {
    var slice := rows[lo..hi];
    forall i | 0 <= i < |slice|
      ensures LinkHolds(h, slice, i)
    {
      assert LinkHolds(h, rows, lo + i);
    }
  }

  lemma NoCollision(h: Hasher, a: AuditRow, b: AuditRow)
    requires Injective(h) && Authentic(h, a) && Authentic(h, b) && a.hash == b.hash
    ensures a.entry == b.entry && a.prevHash == b.prevHash
  {
  }

  /** Walking back in step from two rows with one digest, both chains must reach their start together. */
  lemma {:induction false} EqualDigestsEqualPast(h: Hasher, a: seq<AuditRow>, n: nat, b: seq<AuditRow>, m: nat)
    requires Injective(h)
    requires Accepted(h, a) && Anchored(a) && 0 < n <= |a|
    requires Accepted(h, b) && Anchored(b) && 0 < m <= |b|
    requires a[n - 1].hash == b[m - 1].hash
    ensures n == m && forall i | 0 <= i < n :: a[i].entry == b[i].entry
    decreases n
  {
    assert LinkHolds(h, a, n - 1) && LinkHolds(h, b, m - 1);
    NoCollision(h, a[n - 1], b[m - 1]);
    if n > 1 && m > 1 {
      EqualDigestsEqualPast(h, a, n - 1, b, m - 1);
    }
  }

  /** The head commits to the whole history: two anchored chains with one head are the same history. */
  lemma EqualHeadsEqualHistory(h: Hasher, a: seq<AuditRow>, b: seq<AuditRow>)
    requires Injective(h)
    requires Accepted(h, a) && Anchored(a)
    requires Accepted(h, b) && Anchored(b)
    requires Head(a) == Head(b)
    ensures |a| == |b| && Entries(a) == Entries(b)
  {
    if a != [] {
      EqualDigestsEqualPast(h, a, |a|, b, |b|);
    }
  }

  /** Editing the content of one stored row is always rejected, whatever the rest of the log holds. */
  lemma EditedRowIsRejected(h: Hasher, rows: seq<AuditRow>, i: nat, forged: AuditEntry)
    requires Injective(h) && Accepted(h, rows)
    requires i < |rows| && forged != rows[i].entry
    ensures !Accepted(h, rows[i := rows[i].(entry := forged)])
  {
    var edited := rows[i := rows[i].(entry := forged)];
    assert LinkHolds(h, rows, i);
    if LinkHolds(h, edited, i) {
      NoCollision(h, rows[i], edited[i]);
    }
  }

  /** Cutting rows off the end is the one change the chain alone accepts, and the published head exposes it. */
  lemma TruncationOnlyShowsInTheHead(h: Hasher, rows: seq<AuditRow>, n: nat)
    requires Injective(h) && Accepted(h, rows) && Anchored(rows)
    requires n < |rows|
    ensures Accepted(h, rows[..n])
    ensures Head(rows[..n]) != Head(rows)
  {
    SliceIsAccepted(h, rows, 0, n);
    if n > 0 && rows[n - 1].hash == rows[|rows| - 1].hash {
      EqualDigestsEqualPast(h, rows, n, rows, |rows|);
    }
  }

  /** Removing rows from the middle is rejected: the row after the gap no longer points back. */
  lemma GapIsRejected(h: Hasher, rows: seq<AuditRow>, lo: nat, hi: nat)
    requires Injective(h) && Accepted(h, rows) && Anchored(rows)
    requires 0 < lo < hi < |rows|
    ensures !Accepted(h, rows[..lo] + rows[hi..])
  {
    var cut := rows[..lo] + rows[hi..];
    assert LinkHolds(h, rows, hi);
    if LinkHolds(h, cut, lo) {
      assert cut[lo] == rows[hi] && cut[lo - 1] == rows[lo - 1];
      EqualDigestsEqualPast(h, rows, lo, rows, hi);
    }
  }
}
