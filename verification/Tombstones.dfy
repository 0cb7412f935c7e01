/**
 Delete confirmation: a delete is attempted only after enough consecutive cycles planned
 it. Tombstones count the observations; every cycle first clears those it does not plan.
*/
module Tombstones {
  import opened Wrappers
  import opened Paths
  import opened Records

  const U32_MAX: nat := 0xFFFF_FFFF
  const DELETE_CONFIRMATIONS_REQUIRED: nat := 1

  datatype Tombstone = Tombstone(driveFileId: Option<string>, deletedAt: Instant, byDevice: string, confirmations: nat)

  /** What one delete action brings: the object, the clock, and whether the delete works. */
  datatype Attempt = Attempt(driveFileId: Option<string>, now: Instant, succeeds: bool)

  /**
   One executed cycle: the planned deletes, of which those in `observed` were reached
   before the cycle ended. `required` is the confirmation threshold.
  */
  datatype Cycle = Cycle(planned: set<string>, observed: map<string, Attempt>) {
    predicate Valid() {
      observed.Keys <= planned && forall p :: p in planned ==> IsSafeNonEmpty(p)
    }
  }

  function SaturatingAdd(a: nat, b: nat): nat {
    if a + b < U32_MAX then a + b else U32_MAX
  }

  // ------------------------------------------------------------------ the table

  function Observed(row: Option<Tombstone>, a: Attempt, device: string): Tombstone {
    match row
    case None => Tombstone(a.driveFileId, a.now, device, 0)
    case Some(t) =>
      Tombstone(if t.driveFileId.None? then a.driveFileId else t.driveFileId, a.now, device,
          SaturatingAdd(t.confirmations, 1))
  }

  predicate Confirmed(row: Option<Tombstone>, required: nat) {
    row.Some? && SaturatingAdd(row.value.confirmations, 1) >= required
  }

  /** The row after one delete action: observed, and restarted by a delete that worked. */
  function AfterAction(row: Option<Tombstone>, a: Attempt, device: string, required: nat): Tombstone {
    if Confirmed(row, required) && a.succeeds then Tombstone(a.driveFileId, a.now, device, 0)
    else Observed(row, a, device)
  }

  function Row(rows: map<string, Tombstone>, p: string): Option<Tombstone> {
    if p in rows then Some(rows[p]) else None
  }

  /** The row of one path after a whole cycle. */
  function AfterCycle(row: Option<Tombstone>, c: Cycle, p: string, device: string, required: nat): Option<Tombstone> {
    if p !in c.planned then None
    else if p !in c.observed then row
    else Some(AfterAction(row, c.observed[p], device, required))
  }

  class TombstoneTable {
    var rows: map<string, Tombstone>
    const device: string
    const required: nat

    constructor (device: string, required: nat)
      ensures rows == map[] && this.device == device && this.required == required
    {
      rows := map[];
      this.device := device;
      this.required := required;
    }

    /** `clear_resolved_tombstones`. */
    method ClearResolved(waiting: set<string>)
      modifies this
      ensures rows == map p | p in old(rows) && IsSafeNonEmpty(p) && p in waiting :: old(rows)[p]
    {
      var todo := rows.Keys;
      while todo != {}
        invariant todo <= old(rows).Keys
        invariant rows == map p | p in old(rows) && (p in todo || (IsSafeNonEmpty(p) && p in waiting)) :: old(rows)[p]
        decreases |todo|
      {
        var p :| p in todo;
        if !IsSafeNonEmpty(p) || p !in waiting {
          rows := rows - {p};
        }
        todo := todo - {p};
      }
    }

    /** `confirm_delete_observation`. */
    method ConfirmDeleteObservation(path: string, a: Attempt) returns (confirmed: bool)
      modifies this
      ensures confirmed == Confirmed(Row(old(rows), path), required)
      ensures rows == old(rows)[path := Observed(Row(old(rows), path), a, device)]
    {
      if path !in rows {
        rows := rows[path := Tombstone(a.driveFileId, a.now, device, 0)];
        return false;
      }
      var t := rows[path];
      if t.driveFileId.None? {
        t := t.(driveFileId := a.driveFileId);
      }
      t := t.(byDevice := device, deletedAt := a.now, confirmations := SaturatingAdd(t.confirmations, 1));
      confirmed := t.confirmations >= required;
      rows := rows[path := t];
    }

    /** One delete action: confirm, try the delete, restart the count when it worked. */
    method RunDelete(path: string, a: Attempt) returns (attempted: bool)
      modifies this
      ensures attempted == Confirmed(Row(old(rows), path), required)
      ensures rows == old(rows)[path := AfterAction(Row(old(rows), path), a, device, required)]
    {
      attempted := ConfirmDeleteObservation(path, a);
      if attempted && a.succeeds {
        rows := rows[path := Tombstone(a.driveFileId, a.now, device, 0)];
      }
    }

    /** The delete actions of one cycle; `attempted` are the paths whose delete was tried. */
    method RunCycle(c: Cycle) returns (attempted: set<string>)
      requires c.Valid()
      modifies this
      ensures forall p :: Row(rows, p) == AfterCycle(Row(old(rows), p), c, p, device, required)
      ensures forall p :: p in attempted <==> p in c.observed && Confirmed(Row(old(rows), p), required)
    {
      ghost var rows0 := rows;
      ClearResolved(c.planned);
      attempted := {};
      var todo := c.observed.Keys;
      hide AfterAction, Confirmed;
      assert forall p :: PathDone(rows0, rows, c, todo, attempted, p, device, required);
      while todo != {}
        invariant todo <= c.observed.Keys
        invariant forall p :: PathDone(rows0, rows, c, todo, attempted, p, device, required)
        decreases |todo|
      {
        var path :| path in todo;
        ghost var rows1, attempted1 := rows, attempted;
        var tried := RunDelete(path, c.observed[path]);
        if tried { attempted := attempted + {path}; }
        forall p ensures PathDone(rows0, rows, c, todo - {path}, attempted, p, device, required) {
          assert PathDone(rows0, rows1, c, todo, attempted1, p, device, required);
        }
        todo := todo - {path};
      }
      forall p ensures Row(rows, p) == AfterCycle(Row(rows0, p), c, p, device, required)
                       && (p in attempted <==> p in c.observed && Confirmed(Row(rows0, p), required)) {
        assert PathDone(rows0, rows, c, todo, attempted, p, device, required);
      }
    }
  }

  /** What the loop over the delete actions has done to one path. */
  ghost predicate PathDone(
    rows0: map<string, Tombstone>, rows: map<string, Tombstone>, c: Cycle, todo: set<string>, attempted: set<string>,
    p: string, device: string, required: nat)
  {
    if p in c.observed && p !in todo then
      && Row(rows, p) == Some(AfterAction(Row(rows0, p), c.observed[p], device, required))
      && (p in attempted <==> Confirmed(Row(rows0, p), required))
    else
      Row(rows, p) == (if p in c.planned then Row(rows0, p) else None) && p !in attempted
  }

  // ------------------------------------------------------------------ whole runs

  /** The rows after the first `n` cycles, starting from an empty table. */
  function RowAt(cycles: seq<Cycle>, n: nat, p: string, device: string, required: nat): Option<Tombstone>
    requires n <= |cycles|
  {
    if n == 0 then None else AfterCycle(RowAt(cycles, n - 1, p, device, required), cycles[n - 1], p, device, required)
  }

  predicate Attempted(cycles: seq<Cycle>, n: nat, p: string, device: string, required: nat)
    requires n < |cycles|
  {
    p in cycles[n].observed && Confirmed(RowAt(cycles, n, p, device, required), required)
  }

  predicate DeletedAt(cycles: seq<Cycle>, n: nat, p: string, device: string, required: nat)
    requires n < |cycles|
  {
    Attempted(cycles, n, p, device, required) && cycles[n].observed[p].succeeds
  }

  /**
   `from` starts the current streak: the last cycle that deleted the path, or else the
   first after the last one that did not plan its delete.
  */
  predicate StreakFrom(cycles: seq<Cycle>, from: nat, n: nat, p: string, device: string, required: nat)
    requires n <= |cycles|
  {
    && from <= n
    && (forall i :: from <= i < n ==> p in cycles[i].planned)
    && (forall i :: from < i < n ==> !DeletedAt(cycles, i, p, device, required))
    && (from == 0 || p !in cycles[from - 1].planned || (from < n && DeletedAt(cycles, from, p, device, required)))
  }

  /** How many cycles of `[from, n)` observed the planned delete. */
  function Observations(cycles: seq<Cycle>, from: nat, n: nat, p: string): nat
    requires from <= n <= |cycles|
  {
    if from == n then 0 else Observations(cycles, from, n - 1, p) + if p in cycles[n - 1].observed then 1 else 0
  }

  lemma {:induction false} RowCountsObservations(cycles: seq<Cycle>, from: nat, n: nat, p: string, device: string,
      required: nat)
    requires n <= |cycles| && StreakFrom(cycles, from, n, p, device, required)
    ensures var row, seen := RowAt(cycles, n, p, device, required), Observations(cycles, from, n, p);
            if seen == 0 then row.None? else row.Some? && row.value.confirmations == SaturatingAdd(seen - 1, 0)
    decreases n
  {
    if from < n {
      if from == n - 1 && DeletedAt(cycles, from, p, device, required) {
        assert Observations(cycles, from, from, p) == 0;
      } else {
        RowCountsObservations(cycles, from, n - 1, p, device, required);
        var row := RowAt(cycles, n - 1, p, device, required);
        assert p in cycles[n - 1].planned && !DeletedAt(cycles, n - 1, p, device, required);
        assert Observations(cycles, from, n, p) ==
            Observations(cycles, from, n - 1, p) + if p in cycles[n - 1].observed then 1 else 0;
        if p in cycles[n - 1].observed {
          var a := cycles[n - 1].observed[p];
          assert from == n - 1 ==> row.None?;
          assert !(Confirmed(row, required) && a.succeeds);
          assert RowAt(cycles, n, p, device, required) == Some(Observed(row, a, device));
        }
      }
    }
  }

  /**
   A delete is attempted in a cycle exactly when the cycle observes it and the streak of
   planned deletes before it has at least `required` observations.
  */
  lemma AttemptedExactlyWhenConfirmed(cycles: seq<Cycle>, from: nat, n: nat, p: string, device: string, required: nat)
    requires n < |cycles| && StreakFrom(cycles, from, n, p, device, required) && 1 <= required <= U32_MAX
    ensures Attempted(cycles, n, p, device, required)
            <==> p in cycles[n].observed && Observations(cycles, from, n, p) >= required
  {
    RowCountsObservations(cycles, from, n, p, device, required);
  }

  lemma {:induction false} StreakExists(cycles: seq<Cycle>, n: nat, p: string, device: string, required: nat)
    requires n <= |cycles|
    ensures exists from :: StreakFrom(cycles, from, n, p, device, required)
  {
    if n == 0 {
      assert StreakFrom(cycles, 0, 0, p, device, required);
    } else if p !in cycles[n - 1].planned {
      assert StreakFrom(cycles, n, n, p, device, required);
    } else if DeletedAt(cycles, n - 1, p, device, required) {
      assert StreakFrom(cycles, n - 1, n, p, device, required);
    } else {
      StreakExists(cycles, n - 1, p, device, required);
      var from: nat :| StreakFrom(cycles, from, n - 1, p, device, required);
      assert StreakFrom(cycles, from, n, p, device, required);
    }
  }

  lemma {:induction false} ObservationsBounded(cycles: seq<Cycle>, from: nat, n: nat, p: string)
    requires from <= n <= |cycles|
    ensures Observations(cycles, from, n, p) <= n - from
  {
    if from < n { ObservationsBounded(cycles, from, n - 1, p); }
  }

  /** An attempt comes only after `required` cycles in a row that planned a delete of the path. */
  lemma AttemptNeedsConsecutivePlans(cycles: seq<Cycle>, n: nat, p: string, device: string, required: nat, i: nat)
    requires n < |cycles| && 1 <= required <= U32_MAX && Attempted(cycles, n, p, device, required)
    requires n - required <= i < n
    ensures n >= required && p in cycles[i].planned
  {
    hide Attempted;
    StreakExists(cycles, n, p, device, required);
    var from: nat :| StreakFrom(cycles, from, n, p, device, required);
    AttemptedExactlyWhenConfirmed(cycles, from, n, p, device, required);
    ObservationsBounded(cycles, from, n, p);
  }

  /** After a cycle that planned otherwise, the next delete starts from nothing. */
  lemma OtherPlanResets(cycles: seq<Cycle>, n: nat, p: string, device: string, required: nat)
    requires 0 < n < |cycles| && p !in cycles[n - 1].planned && required >= 1
    ensures !Attempted(cycles, n, p, device, required)
  {
  }

  lemma {:induction false} AllObserved(cycles: seq<Cycle>, from: nat, n: nat, p: string)
    requires from <= n <= |cycles| && forall i :: from <= i < n ==> p in cycles[i].observed
    ensures Observations(cycles, from, n, p) == n - from
  {
    if from < n { AllObserved(cycles, from, n - 1, p); }
  }

  /** `required + 1` observations in a row do attempt the delete, in the last of them at the latest. */
  lemma PersistentDeleteIsAttempted(cycles: seq<Cycle>, start: nat, p: string, device: string, required: nat)
    requires 1 <= required <= U32_MAX && start + required < |cycles|
    requires forall i :: 0 <= i < |cycles| ==> cycles[i].Valid()
    requires forall i :: start <= i <= start + required ==> p in cycles[i].observed
    ensures exists i :: start <= i <= start + required && Attempted(cycles, i, p, device, required)
    ensures (start == 0 || p !in cycles[start - 1].planned) ==>
              forall i :: start <= i <= start + required ==>
                (Attempted(cycles, i, p, device, required) <==> i == start + required)
  {
    hide Attempted;
    var n := start + required;
    if forall i :: start <= i < n ==> !Attempted(cycles, i, p, device, required) {
      StreakExists(cycles, start, p, device, required);
      var from: nat :| StreakFrom(cycles, from, start, p, device, required);
      assert forall i :: start <= i < n ==> !DeletedAt(cycles, i, p, device, required);
      assert StreakFrom(cycles, from, n, p, device, required);
      ObservationsSplit(cycles, from, start, n, p);
      AllObserved(cycles, start, n, p);
      AttemptedExactlyWhenConfirmed(cycles, from, n, p, device, required);
    }
    if start == 0 || p !in cycles[start - 1].planned {
      forall i | start <= i <= n ensures Attempted(cycles, i, p, device, required) <==> i == n {
        FirstAttempt(cycles, start, i, p, device, required);
      }
    }
  }

  lemma {:induction false} ObservationsSplit(cycles: seq<Cycle>, from: nat, mid: nat, n: nat, p: string)
    requires from <= mid <= n <= |cycles|
    ensures Observations(cycles, from, n, p) == Observations(cycles, from, mid, p) + Observations(cycles, mid, n, p)
  {
    if mid < n { ObservationsSplit(cycles, from, mid, n - 1, p); }
  }

  lemma {:induction false} FirstAttempt(cycles: seq<Cycle>, start: nat, i: nat, p: string, device: string,
      required: nat)
    requires 1 <= required <= U32_MAX && start <= i <= start + required < |cycles|
    requires forall k :: 0 <= k < |cycles| ==> cycles[k].Valid()
    requires forall k :: start <= k <= start + required ==> p in cycles[k].observed
    requires start == 0 || p !in cycles[start - 1].planned
    ensures StreakFrom(cycles, start, i, p, device, required)
    ensures Attempted(cycles, i, p, device, required) <==> i == start + required
    decreases i
  {
    hide Attempted;
    if i > start { FirstAttempt(cycles, start, i - 1, p, device, required); }
    AllObserved(cycles, start, i, p);
    AttemptedExactlyWhenConfirmed(cycles, start, i, p, device, required);
  }

  /** With the shipped threshold the cycle before an attempt planned a delete of the path. */
  lemma ShippedThreshold(cycles: seq<Cycle>, n: nat, p: string, device: string)
    requires n < |cycles| && Attempted(cycles, n, p, device, DELETE_CONFIRMATIONS_REQUIRED)
    ensures n > 0 && p in cycles[n - 1].planned
  {
    AttemptNeedsConsecutivePlans(cycles, n, p, device, DELETE_CONFIRMATIONS_REQUIRED, n - 1);
  }
}
