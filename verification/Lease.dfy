/**
 * The job_control table: which controller holds a job and how far the job has come. Ownership changes hands by
 * compare-and-swap, and every other write names its owner in the WHERE clause.
 */
module Lease {
  import opened Prelude
  import opened Plans

  type JobId = int
  type Owner = int

  datatype Row = Row(owner: Owner, until: real, done: Plan)

  /** The statement an unexpired foreign lease turns away. */
  predicate HeldByOther(row: Row, me: Owner, now: real) {
    row.owner != me && row.until > now
  }

  /**
   * The conditional update of a claim. The database counts changed rows, so a match that would store the very
   * values it found is not a win.
   */
  predicate SwapWins(row: Option<Row>, seen: Row, me: Owner, until: real) {
    && row.Some?
    && row.value.owner == seen.owner && row.value.until == seen.until
    && (seen.owner, seen.until) != (me, until)
  }

  class JobControl {
    var rows: map<JobId, Row>

    constructor ()
      ensures rows == map[]
    {
      rows := map[];
    }

    /**
     * An undisturbed claim: the finished steps of the job when it is won, None when it is not. Another's lease is
     * safe until its time has come, and free from then on.
     */
    method Claim(job: JobId, me: Owner, now: real, ttl: real) returns (found: Option<Plan>)
      modifies this
      ensures job !in old(rows) ==> found == Some([])
      ensures job in old(rows) && old(rows)[job].owner != me ==>
                found == if now < old(rows)[job].until then None else Some(old(rows)[job].done)
      ensures job in old(rows) && old(rows)[job].owner == me ==>
                found == if old(rows)[job].until == now + ttl then None else Some(old(rows)[job].done)
      ensures found.Some? ==> rows == old(rows)[job := Row(me, now + ttl, found.value)]
      ensures found.None? ==> rows == old(rows)
    {
      if job !in rows {
        rows := rows[job := Row(me, now + ttl, [])];
        return Some([]);
      }
      var seen := rows[job];
      if seen.owner != me && seen.until > now {
        return None;
      }
      var changed := 0;
      if rows[job].owner == seen.owner && rows[job].until == seen.until {
        var updated := rows[job].(owner := me, until := now + ttl);
        changed := if updated == rows[job] then 0 else 1;
        rows := rows[job := updated];
      }
      if changed != 1 {
        return None;
      }
      return Some(seen.done);
    }

    /** Stores the finished steps; `lost` tells a caller that is not the owner to stand down. */
    method RecordStep(job: JobId, me: Owner, done: Plan) returns (lost: bool)
      modifies this
      ensures lost <==> job !in old(rows) || old(rows)[job].owner != me
      ensures rows == if lost then old(rows) else old(rows)[job := old(rows)[job].(done := done)]
    {
      var changed := 0;
      if job in rows && rows[job].owner == me {
        changed := if rows[job].done == done then 0 else 1;
        rows := rows[job := rows[job].(done := done)];
      }
      lost := false;
      if changed == 0 {
        lost := job !in rows || rows[job].owner != me;
      }
    }

    /** Extends the leases this controller still holds; leases of others and missing rows stay as they are. */
    method Renew(jobs: seq<JobId>, me: Owner, now: real, ttl: real)
      modifies this
      ensures rows.Keys == old(rows).Keys
      ensures forall j :: j in rows ==>
                rows[j] == if j in jobs && old(rows)[j].owner == me then old(rows)[j].(until := now + ttl) else old(rows)[j]
    {
      var k := 0;
      while k < |jobs|
        invariant k <= |jobs|
        invariant rows.Keys == old(rows).Keys
        invariant forall j :: j in rows ==>
                    rows[j] == if j in jobs[..k] && old(rows)[j].owner == me then old(rows)[j].(until := now + ttl)
                               else old(rows)[j]
      {
        if jobs[k] in rows && rows[jobs[k]].owner == me {
          rows := rows[jobs[k] := rows[jobs[k]].(until := now + ttl)];
        }
        assert jobs[..k + 1] == jobs[..k] + [jobs[k]];
        k := k + 1;
      }
      assert jobs[..k] == jobs;
    }

    /** Removes the row of a finished job, unless somebody else owns it by now. */
    method Release(job: JobId, me: Owner)
      modifies this
      ensures rows == if job in old(rows) && old(rows)[job].owner == me then old(rows) - {job} else old(rows)
    {
      if job in rows && rows[job].owner == me {
        rows := rows - {job};
      }
    }
  }
}
