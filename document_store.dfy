/** The document store both collections live in, modelled sequentially: the
    registrations in insertion order and the lock records keyed by event.
    Unique indexes are enforced at insert; the lock compare-and-swap is one
    atomic step. */
module DocumentStore {
  import opened Wrappers
  import opened Text
  import opened RegisterModel
  import opened RegisterHooks
  import opened CoordsLogModel

  class Store {
    var registrations: seq<Registration>
    var locks: map<string, LockRecord>

    /** What the store keeps; see `StoreInvariant`. */
    ghost predicate Valid()
      reads this
    {
      StoreInvariant(registrations, locks)
    }

    constructor()
      ensures Valid()
      ensures registrations == [] && locks == map[]
    {
      registrations := [];
      locks := map[];
    }

    /** `register.save()` for a new document: the hooks in order, then the
        insert under the unique indexes. The stored list grows by the saved
        registration exactly when the save succeeds. */
    method Save(d: Doc, now: int, draws: seq<Draw>) returns (res: Result<Registration, SaveError>)
      requires Valid()
      modifies this
      ensures Valid()
      ensures res == SaveSpec(old(registrations), d, now, draws)
      ensures registrations == if res.Success? then old(registrations) + [res.value] else old(registrations)
      ensures locks == old(locks)
    {
      var repeat := CheckSubmission(d);
      if repeat.Some? {
        return Failure(SubmissionRepeat(repeat.value));
      }
      var validated := Validate(d);
      if validated.None? {
        return Failure(ValidationFailed);
      }
      var r := validated.value;
      var phones, rolls := CollectCheckValues(r);
      var conflict := exists x :: x in registrations && MatchesConflictQuery(x, r.eventName, phones, rolls);
      if conflict {
        return Failure(AlreadyRegistered);
      }
      if r.receiptId == "" {
        var id := GenerateReceipt(ReceiptPrefix(r.eventName), registrations, draws);
        if id.None? {
          return Failure(ReceiptsExhausted);
        }
        r := r.(receiptId := id.value);
      }
      r := r.(createdAt := now);
      var violation := IndexViolation(registrations, r);
      if violation.Some? {
        return Failure(DuplicateKey(violation.value));
      }
      assert SaveSpec(registrations, d, now, draws) == Success(r);
      SaveKeepsInvariant(registrations, locks, d, now, draws);
      registrations := registrations + [r];
      return Success(r);
    }

    /** `CoordinatorLog.findOne`, then `create` when absent: an existing record
        is left untouched. */
    method FindOrCreateLock(eventName: string) returns (l: LockRecord)
      requires Valid()
      modifies this
      ensures Valid()
      ensures eventName in old(locks) ==> locks == old(locks) && l == old(locks)[eventName]
      ensures eventName !in old(locks) ==> locks == old(locks)[eventName := NewLockRecord(eventName)]
      ensures l == locks[eventName] && l.eventName == eventName
      ensures registrations == old(registrations)
    {
      if eventName in locks {
        return locks[eventName];
      }
      l := NewLockRecord(eventName);
      locks := locks[eventName := l];
    }

    /** The compare-and-swap: whether it matched and, then, the updated record. */
    method ClaimLock(eventName: string, name: Option<string>, time: int) returns (result: Option<LockRecord>)
      requires Valid() && eventName in locks
      modifies this
      ensures Valid()
      ensures result == Claim(old(locks)[eventName], name, time)
      ensures locks == old(locks)[eventName := AfterClaim(old(locks)[eventName], name, time)]
      ensures registrations == old(registrations)
    {
      var current := locks[eventName];
      ClaimKeepsWellFormed(current, name, time);
      result := Claim(current, name, time);
      if result.Some? {
        locks := locks[eventName := result.value];
      }
    }
  }

  /** What the store keeps: the unique indexes, every registration
      validated, phones (and INTERNAL rolls) unique within each event, and at
      most one well-formed lock record per event, filed under its own
      `eventName` (the unique index on models/coordsLogModel.js's
      `eventName`). */
  ghost predicate StoreInvariant(regs: seq<Registration>, locks: map<string, LockRecord>) {
    && IndexesHold(regs)
    && (forall x :: x in regs ==> Conforms(x))
    && Deduplicated(regs)
    && (forall e :: e in locks ==> locks[e].eventName == e && WellFormed(locks[e]))
  }

  /** A successful save appends a registration the invariant admits. */
  lemma SaveKeepsInvariant(regs: seq<Registration>, locks: map<string, LockRecord>, d: Doc, now: int, draws: seq<Draw>)
    requires StoreInvariant(regs, locks) && SaveSpec(regs, d, now, draws).Success?
    ensures StoreInvariant(regs + [SaveSpec(regs, d, now, draws).value], locks)
  {
    var r := SaveSpec(regs, d, now, draws).value;
    SavePreservesDedup(regs, d, now, draws);
    SaveAdmitsOnlyFresh(regs, d, now, draws);
    InsertKeepsIndexes(regs, r);
    assert forall x :: x in regs + [r] ==> x in regs || x == r;
  }

  function ReceiptIds(regs: seq<Registration>): (ids: seq<string>)
    ensures |ids| == |regs| && forall i :: 0 <= i < |regs| ==> ids[i] == regs[i].receiptId
  {
    seq(|regs|, i requires 0 <= i < |regs| => regs[i].receiptId)
  }

  /** Under the indexes no two stored registrations share a receipt ID, and
      no two registrations of the same event share a captain phone or a
      captain roll. */
  lemma IndexesMeanUnique(regs: seq<Registration>)
    requires IndexesHold(regs)
    ensures Distinct(ReceiptIds(regs))
    ensures forall i, j :: 0 <= i < |regs| && 0 <= j < |regs| && i != j && regs[i].eventName == regs[j].eventName ==>
      (regs[i].capPhone != regs[j].capPhone && (regs[i].capRoll.Some? ==> regs[i].capRoll != regs[j].capRoll))
  {
    forall i, j | 0 <= i < |regs| && 0 <= j < |regs| && i != j
      ensures !Collides(ReceiptIdIndex, regs[i], regs[j])
      ensures !Collides(EventCapPhoneIndex, regs[i], regs[j])
      ensures !Collides(EventCapRollIndex, regs[i], regs[j])
    {
      if i < j {
        assert !Collides(ReceiptIdIndex, regs[i], regs[j]);
        assert !Collides(EventCapPhoneIndex, regs[i], regs[j]);
        assert !Collides(EventCapRollIndex, regs[i], regs[j]);
      } else {
        assert !Collides(ReceiptIdIndex, regs[j], regs[i]);
        assert !Collides(EventCapPhoneIndex, regs[j], regs[i]);
        assert !Collides(EventCapRollIndex, regs[j], regs[i]);
      }
    }
  }
}
