/**
 * Changing a login password in its three places: the ledger, the Secrets of the user's Pods, and the running Pods
 * themselves. A failure on the way is answered by putting the old hash back everywhere, which may fail as well.
 */
module Password {
  import opened Prelude

  type Hash = string
  type Pod = string

  /** A call to the cluster; one that fails or never returns may have taken effect all the same. */
  datatype Answer = Fine | Fails(applied: bool) | Dies(applied: bool)

  /** What one pass over the three places meets with, call by call; each of the two loops lists the Pods first. */
  datatype Weather = Weather(
    ledger: Answer,
    allListed: Answer,
    secrets: nat -> Answer,
    runningListed: Answer,
    pods: nat -> Answer)

  ghost predicate Calm(w: Weather) {
    && w.ledger.Fine? && w.allListed.Fine? && w.runningListed.Fine?
    && (forall k :: w.secrets(k).Fine?) && (forall k :: w.pods(k).Fine?)
  }

  datatype Pass = Whole | Partial | Cut

  datatype Outcome = Success | UserNotFound | LedgerFailed | NotApplied(rolledBack: bool) | Dead

  /** Every value that is not as it was is the new one. */
  ghost predicate OnlyChangedTo(before: map<Pod, Hash>, after: map<Pod, Hash>, hash: Hash) {
    before.Keys == after.Keys && forall p :: p in after ==> after[p] == before[p] || after[p] == hash
  }

  ghost predicate AllHold(values: map<Pod, Hash>, hash: Hash) {
    forall p :: p in values ==> values[p] == hash
  }

  class Account {
    /** All Pods of the user in the order of the listing. Some have no Secret yet, some do not run. */
    const pods: seq<Pod>
    var ledger: Option<Hash>
    var secrets: map<Pod, Hash>
    var running: map<Pod, Hash>

    constructor (pods: seq<Pod>, ledger: Option<Hash>, secrets: map<Pod, Hash>, running: map<Pod, Hash>)
      requires forall p :: p in secrets || p in running ==> p in pods
      ensures Valid()
      ensures this.pods == pods && this.ledger == ledger && this.secrets == secrets && this.running == running
    {
      this.pods, this.ledger, this.secrets, this.running := pods, ledger, secrets, running;
    }

    ghost predicate Valid()
      reads this
    {
      forall p :: p in secrets || p in running ==> p in pods
    }

    /** All three places hold this hash. */
    ghost predicate Everywhere(hash: Hash)
      reads this
    {
      ledger == Some(hash) && AllHold(secrets, hash) && AllHold(running, hash)
    }

    /** The old hash, or None when there is no such account. */
    method SetLedger(hash: Hash, answer: Answer) returns (old_: Option<Hash>, pass: Pass)
      modifies this`ledger
      ensures old_ == old(ledger)
      ensures pass == match answer case Fine => Whole case Fails(_) => Partial case Dies(_) => Cut
      ensures ledger == if old(ledger).Some? && (answer.Fine? || answer.applied) then Some(hash) else old(ledger)
    {
      old_ := ledger;
      if old_.Some? && (answer.Fine? || answer.applied) {
        ledger := Some(hash);
      }
      pass := match answer case Fine => Whole case Fails(_) => Partial case Dies(_) => Cut;
    }

    /** Secrets in the order of the Pods; the first call that fails ends it. A Pod without a Secret is passed over. */
    method UpdateSecrets(hash: Hash, listed: Answer, answers: nat -> Answer) returns (pass: Pass)
      requires Valid()
      modifies this`secrets
      ensures Valid() && OnlyChangedTo(old(secrets), secrets, hash)
      ensures pass.Whole? ==> AllHold(secrets, hash)
      ensures !listed.Fine? ==> !pass.Whole? && secrets == old(secrets)
      ensures listed.Fine? && (forall k :: answers(k).Fine?) ==> pass.Whole?
    {
      if !listed.Fine? {
        return if listed.Dies? then Cut else Partial;
      }
      for k := 0 to |pods|
        invariant OnlyChangedTo(old(secrets), secrets, hash)
        invariant forall p :: p in secrets && p in pods[..k] ==> secrets[p] == hash
      {
        var p := pods[k];
        if p in secrets && (answers(k).Fine? || answers(k).applied) {
          secrets := secrets[p := hash];
        }
        if !answers(k).Fine? {
          return if answers(k).Dies? then Cut else Partial;
        }
        assert pods[..k + 1] == pods[..k] + [p];
      }
      assert pods[..|pods|] == pods;
      return Whole;
    }

    /** Running Pods one by one; one that fails does not keep the others from being tried. */
    method SyncRunningPods(hash: Hash, listed: Answer, answers: nat -> Answer) returns (pass: Pass)
      requires Valid()
      modifies this`running
      ensures Valid() && OnlyChangedTo(old(running), running, hash)
      ensures pass.Whole? ==> AllHold(running, hash)
      ensures !listed.Fine? ==> !pass.Whole? && running == old(running)
      ensures listed.Fine? && (forall k :: answers(k).Fine?) ==> pass.Whole?
    {
      if !listed.Fine? {
        return if listed.Dies? then Cut else Partial;
      }
      pass := Whole;
      for k := 0 to |pods|
        invariant OnlyChangedTo(old(running), running, hash)
        invariant pass.Whole? || pass.Partial?
        invariant pass.Whole? ==> forall p :: p in running && p in pods[..k] ==> running[p] == hash
        invariant (forall i :: answers(i).Fine?) ==> pass.Whole?
      {
        var p := pods[k];
        assert pods[..k + 1] == pods[..k] + [p];
        if p in running {
          if answers(k).Fine? || answers(k).applied {
            running := running[p := hash];
          }
          if answers(k).Dies? {
            return Cut;
          }
          if answers(k).Fails? {
            pass := Partial;
          }
        }
      }
      assert pods[..|pods|] == pods;
    }

    /** Puts the old hash back; Whole when it is back everywhere. */
    method Restore(hash: Hash, insertable: bool, w: Weather) returns (pass: Pass)
      requires Valid()
      modifies this
      ensures Valid()
      ensures ledger == old(ledger) || (old(ledger).Some? && ledger == Some(hash))
      ensures OnlyChangedTo(old(secrets), secrets, hash) && OnlyChangedTo(old(running), running, hash)
      ensures pass.Whole? ==> insertable && (old(ledger).Some? ==> Everywhere(hash))
      ensures Calm(w) && insertable ==> pass.Whole?
    {
      var _, first := SetLedger(hash, w.ledger);
      if !first.Whole? {
        return first;
      }
      if !insertable {
        return Partial;
      }
      pass := UpdateSecrets(hash, w.allListed, w.secrets);
      if pass.Whole? {
        pass := SyncRunningPods(hash, w.runningListed, w.pods);
      }
    }

    /**
     * One attempt. `insertable` tells of a hash whether a Pod's Secret may hold it (SHA-512 crypt); an account that
     * was locked has an old hash that may not, and only its ledger line can be put back.
     */
    method Change(hash: Hash, insertable: Hash -> bool, w: Weather, back: Weather) returns (outcome: Outcome)
      requires Valid()
      modifies this
      ensures Valid()
      ensures outcome.Success? ==> Everywhere(hash)
      ensures outcome == NotApplied(true) ==>
                old(ledger).Some? && old(ledger).value != hash && insertable(old(ledger).value) && Everywhere(old(ledger).value)
      ensures outcome.UserNotFound? ==> old(ledger).None? && secrets == old(secrets) && running == old(running)
      ensures old(ledger).None? && w.ledger.Fine? ==> outcome.UserNotFound?
      ensures outcome.LedgerFailed? <==> w.ledger.Fails?
      ensures ledger == old(ledger) || (old(ledger).Some? && ledger == Some(hash))
      ensures old(ledger).Some? && Calm(w) ==> outcome.Success?
      ensures old(ledger).Some? && outcome == NotApplied(false) && Calm(back) ==>
                old(ledger).value == hash || !insertable(old(ledger).value)
    {
      var was, pass := SetLedger(hash, w.ledger);
      if !pass.Whole? {
        return if pass.Cut? then Dead else LedgerFailed;
      }
      if was.None? {
        return UserNotFound;
      }
      pass := UpdateSecrets(hash, w.allListed, w.secrets);
      if pass.Whole? {
        pass := SyncRunningPods(hash, w.runningListed, w.pods);
      }
      if pass.Cut? {
        return Dead;
      }
      if pass.Whole? {
        return Success;
      }
      if was.value == hash {
        return NotApplied(false);
      }
      pass := Restore(was.value, insertable(was.value), back);
      return if pass.Cut? then Dead else NotApplied(pass.Whole?);
    }

    /**
     * The attempts of a job, until one succeeds, finds no account, or has put everything back. Through failures at
     * any call, lost answers and deaths on the way, success means the new hash everywhere and a reported rollback
     * means the ledger's original hash everywhere; no other hash ever gets into the ledger.
     */
    method Job(hash: Hash, insertable: Hash -> bool, attempts: seq<(Weather, Weather)>) returns (outcome: Outcome)
      requires Valid()
      modifies this
      ensures Valid()
      ensures outcome.Success? ==> Everywhere(hash)
      ensures outcome == NotApplied(true) ==>
                old(ledger).Some? && old(ledger).value != hash && Everywhere(old(ledger).value)
      ensures ledger == old(ledger) || (old(ledger).Some? && ledger == Some(hash))
      ensures outcome.UserNotFound? ==> old(ledger).None?
      ensures old(ledger).Some? && attempts != [] && Calm(attempts[|attempts| - 1].0) ==>
                outcome.Success? || outcome == NotApplied(true)
      ensures old(ledger).Some? && (old(ledger).value == hash || !insertable(old(ledger).value)) ==> outcome != NotApplied(true)
    {
      outcome := Dead;
      var k := 0;
      while k < |attempts|
        invariant k <= |attempts| && Valid()
        invariant ledger == old(ledger) || (old(ledger).Some? && ledger == Some(hash))
        invariant !outcome.Success? && !outcome.UserNotFound? && outcome != NotApplied(true)
        invariant old(ledger).Some? && k == |attempts| > 0 ==> !Calm(attempts[k - 1].0)
      {
        outcome := Change(hash, insertable, attempts[k].0, attempts[k].1);
        if outcome.Success? || outcome.UserNotFound? || outcome == NotApplied(true) {
          return;
        }
        k := k + 1;
      }
    }
  }
}
