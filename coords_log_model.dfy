/** The per-event export lock of models/coordsLogModel.js: a record that
    starts UNCLAIMED and is claimed at most once, by a compare-and-swap on
    `vCardsDownloaded`. Times are milliseconds since the epoch. */
module CoordsLogModel {
  import opened Wrappers

  datatype LockRecord = LockRecord(
    eventName: string,
    vCardsDownloaded: bool,
    firstDownloaderName: Option<string>,
    downloadTime: Option<int>)

  /** No coordinator has exported yet: the flag is down and nothing is recorded. */
  predicate Unclaimed(l: LockRecord) {
    !l.vCardsDownloaded && l.firstDownloaderName.None? && l.downloadTime.None?
  }

  /** The two states a record can be in: UNCLAIMED, or CLAIMED with a time.
      The name is whatever the winner submitted and may be absent. */
  predicate WellFormed(l: LockRecord) {
    Unclaimed(l) || (l.vCardsDownloaded && l.downloadTime.Some?)
  }

  /** `CoordinatorLog.create({eventName})`: every other field takes its default. */
  function NewLockRecord(eventName: string): (l: LockRecord)
    ensures l.eventName == eventName && Unclaimed(l) && WellFormed(l)
  {
    LockRecord(eventName, false, None, None)
  }

  /** `findOneAndUpdate({eventName, vCardsDownloaded: false}, {$set: ...}, {new: true})`
      on the event's record: the updated record when the filter matched,
      `None` (and no change) otherwise. */
  function Claim(l: LockRecord, name: Option<string>, time: int): (r: Option<LockRecord>)
    ensures r.Some? <==> !l.vCardsDownloaded
    ensures r.Some? ==>
      && r.value.eventName == l.eventName
      && r.value.vCardsDownloaded
      && r.value.firstDownloaderName == name
      && r.value.downloadTime == Some(time)
  {
    if l.vCardsDownloaded then None
    else Some(l.(vCardsDownloaded := true, firstDownloaderName := name, downloadTime := Some(time)))
  }

  /** The record after an attempt, matched or not. */
  function AfterClaim(l: LockRecord, name: Option<string>, time: int): LockRecord {
    match Claim(l, name, time)
    case Some(l') => l'
    case None => l
  }

  /** A claim keeps the record well formed, and a claimed record is final:
      later attempts fail and leave it, winner and time included, as it was. */
  lemma ClaimKeepsWellFormed(l: LockRecord, name: Option<string>, time: int)
    requires WellFormed(l)
    ensures WellFormed(AfterClaim(l, name, time))
    ensures l.vCardsDownloaded ==> Claim(l, name, time).None? && AfterClaim(l, name, time) == l
    ensures AfterClaim(AfterClaim(l, name, time), name, time) == AfterClaim(l, name, time)
  {
  }

  /** One export attempt: who asked and when. */
  datatype Attempt = Attempt(name: Option<string>, time: int)

  /** Sequential attempts on one record: the final record and, per attempt,
      whether it won the compare-and-swap. */
  function RunClaims(l: LockRecord, attempts: seq<Attempt>): (r: (LockRecord, seq<bool>))
    ensures |r.1| == |attempts|
    ensures r.0.eventName == l.eventName
    decreases |attempts|
  {
    if attempts == [] then (l, [])
    else
      var a := attempts[0];
      var rest := RunClaims(AfterClaim(l, a.name, a.time), attempts[1..]);
      (rest.0, [Claim(l, a.name, a.time).Some?] + rest.1)
  }

  /** From a claimed record every attempt loses and the record never changes. */
  lemma {:induction false} ClaimedStaysPut(l: LockRecord, attempts: seq<Attempt>)
    requires l.vCardsDownloaded
    ensures RunClaims(l, attempts).0 == l
    ensures forall i :: 0 <= i < |attempts| ==> !RunClaims(l, attempts).1[i]
    decreases |attempts|
  {
    if attempts != [] {
      ClaimedStaysPut(l, attempts[1..]);
    }
  }

  /** Starting from a fresh record, exactly the first attempt is reported as
      the first download, and the record names that attempt's coordinator
      and time for all later callers. */
  lemma {:induction false} FirstAttemptWins(eventName: string, attempts: seq<Attempt>)
    requires |attempts| > 0
    ensures var r := RunClaims(NewLockRecord(eventName), attempts);
      && (forall i :: 0 <= i < |attempts| ==> (r.1[i] <==> i == 0))
      && r.0 == LockRecord(eventName, true, attempts[0].name, Some(attempts[0].time))
  {
    var l := NewLockRecord(eventName);
    var a := attempts[0];
    var won := AfterClaim(l, a.name, a.time);
    ClaimedStaysPut(won, attempts[1..]);
  }
}
