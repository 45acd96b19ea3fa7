/** The coordinator export of middleware/download.js: the passkey check, the
    per-event lock that lets exactly one coordinator take the contact cards,
    and the sheet every authorised coordinator receives. */
module Download {
  import opened Wrappers
  import opened Text
  import opened RegisterModel
  import opened CoordsLogModel
  import opened DocumentStore
  import opened ExportData

  /** The request body; any field may be absent. */
  datatype DownloadRequest = DownloadRequest(
    eventName: string,
    coordsValue: Option<string>,
    coordinatorName: Option<string>,
    passkey: Option<string>)

  /** The workbook's one sheet, before it is encoded. */
  datatype Sheet = Sheet(columns: seq<Column>, rows: seq<Row>)

  datatype DownloadReply =
    | Failed(code: int, error: string)
    | NoRegistrations
    | Exported(message: string, sheet: Sheet, vcf: Option<string>)

  const ServerErrorMessage := "Server Error processing download"
  const InvalidPasskeyMessage := "Invalid Passkey"
  const NoRegistrationsMessage := "No one registered yet!"
  const FirstDownloadMessage := "You are the first coordinator, You can download both Contacts and the Excel Sheet"

  /** The HTTP status and `success` flag of each reply. */
  function StatusCode(reply: DownloadReply): int {
    match reply
    case Failed(code, _) => code
    case _ => 200
  }

  /** The environment variable holding a coordinator group's passkey. */
  function PasskeyVariable(coordsValue: string): string {
    "PASSKEY_" + ToUpper(coordsValue)
  }

  /** The passkey is accepted when the variable is set to a non-empty value
      and the submitted passkey is exactly that value. */
  predicate PasskeyAccepted(env: map<string, string>, coordsValue: string, passkey: Option<string>) {
    var key := PasskeyVariable(coordsValue);
    key in env && env[key] != "" && passkey == Some(env[key])
  }

  /** `find({ eventName })` for an already cast filter value: the
      registrations of that event, in store order. */
  function EventRegistrations(regs: seq<Registration>, eventName: string): (rs: seq<Registration>)
    ensures forall x :: x in rs <==> x in regs && x.eventName == eventName
    ensures |rs| <= |regs|
  {
    if regs == [] then []
    else
      var init := EventRegistrations(regs[..|regs| - 1], eventName);
      var last := regs[|regs| - 1];
      assert forall x :: x in regs <==> x in regs[..|regs| - 1] || x == last;
      if last.eventName == eventName then init + [last] else init
  }

  function RowsFor(regs: seq<Registration>): (rows: seq<Row>)
    ensures |rows| == |regs| && forall i :: 0 <= i < |regs| ==> rows[i] == RowFor(regs[i])
  {
    seq(|regs|, i requires 0 <= i < |regs| => RowFor(regs[i]))
  }

  function SheetFor(regs: seq<Registration>): Sheet {
    Sheet(ColumnsFor(MaxTeamSize(regs)), RowsFor(regs))
  }

  /** The name as a template literal prints it; an unset name prints as "null". */
  function DownloaderText(name: Option<string>): string {
    match name
    case Some(n) => n
    case None => "null"
  }

  /** The alert a later coordinator gets, naming the first one and the time
      as `formatTime` renders it. */
  function AlertMessage(name: Option<string>, timeText: string): string {
    "\U{26A0} Alert : Contacts were ALREADY downloaded by *" + DownloaderText(name) + "*, At " + timeText + "."
  }

  /** The lock table once the event's record exists. */
  function WithLock(locks: map<string, LockRecord>, eventName: string): (ls: map<string, LockRecord>)
    ensures eventName in ls && ls[eventName].eventName == (if eventName in locks then locks[eventName].eventName else eventName)
  {
    if eventName in locks then locks else locks[eventName := NewLockRecord(eventName)]
  }

  /** Writing the event's record over the table `WithLock` made is writing
      it over the original table. */
  lemma WithLockOverwritten(locks: map<string, LockRecord>, eventName: string, l: LockRecord)
    ensures WithLock(locks, eventName)[eventName := l] == locks[eventName := l]
  {
  }

  /** One call of the handler on the registrations `regs` and the lock
      table `locks`, at time `now`: the reply and the new lock table. */
  function DownloadSpec(env: map<string, string>, regs: seq<Registration>, locks: map<string, LockRecord>,
                        req: DownloadRequest, now: int, formatTime: int -> string): (DownloadReply, map<string, LockRecord>)
  {
    if req.coordsValue.None? then (Failed(500, ServerErrorMessage), locks)
    else if !PasskeyAccepted(env, req.coordsValue.value, req.passkey) then (Failed(401, InvalidPasskeyMessage), locks)
    else
      // The query casts the filter value through the path's `trim` setter.
      var registrations := EventRegistrations(regs, Trim(req.eventName));
      if registrations == [] then (NoRegistrations, locks)
      else
        var locks1 := WithLock(locks, req.eventName);
        var existing := locks1[req.eventName];
        var lockResult := Claim(existing, req.coordinatorName, now);
        var locks2 := locks1[req.eventName := AfterClaim(existing, req.coordinatorName, now)];
        var sheet := SheetFor(registrations);
        if lockResult.Some? then
          (Exported(FirstDownloadMessage, sheet, Some(Vcf(req.eventName, registrations))), locks2)
        else
          (Exported(AlertMessage(existing.firstDownloaderName, formatTime(existing.downloadTime.GetOr(0))), sheet, None), locks2)
  }

  /** `handleDownload` against the store: the store's registrations are left
      as they were, and the lock table changes as `DownloadSpec` says. */
  method HandleDownload(store: Store, env: map<string, string>, req: DownloadRequest, now: int, formatTime: int -> string)
    returns (reply: DownloadReply)
    requires store.Valid()
    modifies store
    ensures store.Valid()
    ensures (reply, store.locks) == DownloadSpec(env, old(store.registrations), old(store.locks), req, now, formatTime)
    ensures store.registrations == old(store.registrations)
  {
    if req.coordsValue.None? {
      return Failed(500, ServerErrorMessage);
    }
    var envKey := PasskeyVariable(req.coordsValue.value);
    if envKey !in env || env[envKey] == "" || Some(env[envKey]) != req.passkey {
      return Failed(401, InvalidPasskeyMessage);
    }
    var registrations := EventRegistrations(store.registrations, Trim(req.eventName));
    if registrations == [] {
      return NoRegistrations;
    }
    var existingLog := store.FindOrCreateLock(req.eventName);
    var lockResult := store.ClaimLock(req.eventName, req.coordinatorName, now);
    var isFirstDownload := lockResult.Some?;
    var logDetails := if isFirstDownload then lockResult.value else store.locks[req.eventName];
    var maxTeamMembers := ComputeMaxTeamSize(registrations);
    var columns := BuildColumns(maxTeamMembers);
    var rows := BuildRows(registrations);
    var sheet := Sheet(columns, rows);
    assert sheet == SheetFor(registrations);
    if isFirstDownload {
      var vCardContent := BuildVcf(req.eventName, registrations);
      reply := Exported(FirstDownloadMessage, sheet, Some(vCardContent));
    } else {
      var timeStr := formatTime(logDetails.downloadTime.GetOr(0));
      reply := Exported(AlertMessage(logDetails.firstDownloaderName, timeStr), sheet, None);
    }
  }

  // ---------------------------------------------------------------------
  // Properties

  /** Without a coordinator group the handler fails with 500; with a wrong
      or unset passkey it refuses with 401; for an event nobody registered
      for it answers "No one registered yet!". None of these touches a lock
      record. */
  lemma GuardsLeaveLocks(env: map<string, string>, regs: seq<Registration>, locks: map<string, LockRecord>,
                         req: DownloadRequest, now: int, formatTime: int -> string)
    ensures req.coordsValue.None? ==> DownloadSpec(env, regs, locks, req, now, formatTime) == (Failed(500, ServerErrorMessage), locks)
    ensures req.coordsValue.Some? && !PasskeyAccepted(env, req.coordsValue.value, req.passkey) ==>
      DownloadSpec(env, regs, locks, req, now, formatTime) == (Failed(401, InvalidPasskeyMessage), locks)
    ensures (req.coordsValue.Some? && PasskeyAccepted(env, req.coordsValue.value, req.passkey)
      && forall x :: x in regs ==> x.eventName != Trim(req.eventName)) ==>
      DownloadSpec(env, regs, locks, req, now, formatTime) == (NoRegistrations, locks)
  {
  }

  /** An authorised coordinator asking for an event with registrations,
      before anybody has exported it, wins the lock: they get the sheet and
      the contact cards, and the record names them and the time. */
  lemma FirstExportWins(env: map<string, string>, regs: seq<Registration>, locks: map<string, LockRecord>,
                        req: DownloadRequest, now: int, formatTime: int -> string)
    requires req.coordsValue.Some? && PasskeyAccepted(env, req.coordsValue.value, req.passkey)
    requires exists x :: x in regs && x.eventName == Trim(req.eventName)
    requires req.eventName in locks ==> locks[req.eventName].eventName == req.eventName && !locks[req.eventName].vCardsDownloaded
    ensures var rs := EventRegistrations(regs, Trim(req.eventName));
      DownloadSpec(env, regs, locks, req, now, formatTime)
        == (Exported(FirstDownloadMessage, SheetFor(rs), Some(Vcf(req.eventName, rs))),
            locks[req.eventName := LockRecord(req.eventName, true, req.coordinatorName, Some(now))])
  {
    var e := req.eventName;
    var x :| x in regs && x.eventName == Trim(e);
    var rs := EventRegistrations(regs, Trim(e));
    assert x in rs;
    var locks1 := WithLock(locks, e);
    var existing := locks1[e];
    assert existing == LockRecord(e, false, existing.firstDownloaderName, existing.downloadTime);
    var won := LockRecord(e, true, req.coordinatorName, Some(now));
    assert Claim(existing, req.coordinatorName, now) == Some(won);
    assert AfterClaim(existing, req.coordinatorName, now) == won;
    WithLockOverwritten(locks, e, won);
    assert DownloadSpec(env, regs, locks, req, now, formatTime)
      == (Exported(FirstDownloadMessage, SheetFor(rs), Some(Vcf(e, rs))), locks1[e := won]);
  }

  /** In particular, a name with no lock record yet gets the cards. */
  lemma UnlockedNameGetsCards(env: map<string, string>, regs: seq<Registration>, locks: map<string, LockRecord>,
                              req: DownloadRequest, now: int, formatTime: int -> string)
    requires req.coordsValue.Some? && PasskeyAccepted(env, req.coordsValue.value, req.passkey)
    requires exists x :: x in regs && x.eventName == Trim(req.eventName)
    requires req.eventName !in locks
    ensures var step := DownloadSpec(env, regs, locks, req, now, formatTime);
      && GaveCards(step.0)
      && (forall k :: k in step.1 ==> k in locks || k == req.eventName)
      && req.eventName in step.1 && step.1[req.eventName].vCardsDownloaded
  {
    FirstExportWins(env, regs, locks, req, now, formatTime);
  }

  /** The lock record is keyed by the name as sent and the registrations are
      found by its trim: two authorised requests whose names differ but
      trim alike, neither of them locked yet, both get the contact cards,
      one after the other. */
  lemma PaddedNameBypassesLock(env: map<string, string>, regs: seq<Registration>, locks: map<string, LockRecord>,
                               first: DownloadRequest, second: DownloadRequest, t1: int, t2: int, formatTime: int -> string)
    requires first.coordsValue.Some? && PasskeyAccepted(env, first.coordsValue.value, first.passkey)
    requires second.coordsValue.Some? && PasskeyAccepted(env, second.coordsValue.value, second.passkey)
    requires exists x :: x in regs && x.eventName == Trim(first.eventName)
    requires Trim(second.eventName) == Trim(first.eventName) && second.eventName != first.eventName
    requires first.eventName !in locks && second.eventName !in locks
    ensures var step := DownloadSpec(env, regs, locks, first, t1, formatTime);
      GaveCards(step.0) && GaveCards(DownloadSpec(env, regs, step.1, second, t2, formatTime).0)
  {
    var locks1 := DownloadSpec(env, regs, locks, first, t1, formatTime).1;
    UnlockedNameGetsCards(env, regs, locks, first, t1, formatTime);
    assert second.eventName !in locks1;
    UnlockedNameGetsCards(env, regs, locks1, second, t2, formatTime);
  }

  /** A run of two requests is the first request, then the second from the
      first's lock table. */
  lemma RunOfTwo(env: map<string, string>, regs: seq<Registration>, locks: map<string, LockRecord>,
                 first: DownloadRequest, second: DownloadRequest, t1: int, t2: int, formatTime: int -> string)
    ensures var step := DownloadSpec(env, regs, locks, first, t1, formatTime);
      RunDownloads(env, regs, locks, [(first, t1), (second, t2)], formatTime).0
        == [step.0, DownloadSpec(env, regs, step.1, second, t2, formatTime).0]
  {
    var reqs := [(first, t1), (second, t2)];
    assert reqs[1..] == [(second, t2)];
    assert reqs[1..][1..] == [];
  }

  /** The same within one run: unlike two requests naming the event alike
      (`CardsAtMostOncePerEvent`), both replies carry the cards. */
  lemma PaddedRunGivesCardsTwice(env: map<string, string>, regs: seq<Registration>, locks: map<string, LockRecord>,
                                 first: DownloadRequest, second: DownloadRequest, t1: int, t2: int, formatTime: int -> string)
    requires first.coordsValue.Some? && PasskeyAccepted(env, first.coordsValue.value, first.passkey)
    requires second.coordsValue.Some? && PasskeyAccepted(env, second.coordsValue.value, second.passkey)
    requires exists x :: x in regs && x.eventName == Trim(first.eventName)
    requires Trim(second.eventName) == Trim(first.eventName) && second.eventName != first.eventName
    requires first.eventName !in locks && second.eventName !in locks
    ensures var replies := RunDownloads(env, regs, locks, [(first, t1), (second, t2)], formatTime).0;
      GaveCards(replies[0]) && GaveCards(replies[1])
  {
    PaddedNameBypassesLock(env, regs, locks, first, second, t1, t2, formatTime);
    RunOfTwo(env, regs, locks, first, second, t1, t2, formatTime);
  }

  /** Once the event has been exported, an authorised coordinator gets the
      same sheet, no contact cards, and the alert naming the recorded winner
      and time; the record stays as it was. */
  lemma LaterExportDenied(env: map<string, string>, regs: seq<Registration>, locks: map<string, LockRecord>,
                          req: DownloadRequest, now: int, formatTime: int -> string)
    requires req.coordsValue.Some? && PasskeyAccepted(env, req.coordsValue.value, req.passkey)
    requires exists x :: x in regs && x.eventName == Trim(req.eventName)
    requires req.eventName in locks && locks[req.eventName].vCardsDownloaded
    ensures var l := locks[req.eventName];
      DownloadSpec(env, regs, locks, req, now, formatTime)
        == (Exported(AlertMessage(l.firstDownloaderName, formatTime(l.downloadTime.GetOr(0))),
                     SheetFor(EventRegistrations(regs, Trim(req.eventName))), None),
            locks)
  {
    var x :| x in regs && x.eventName == Trim(req.eventName);
    assert x in EventRegistrations(regs, Trim(req.eventName));
    var l := locks[req.eventName];
    assert locks[req.eventName := AfterClaim(l, req.coordinatorName, now)] == locks;
  }

  /** Once an event's lock is claimed it stays claimed, with the same
      winner and time, whatever request comes next. */
  lemma {:induction false} ClaimedLockKept(env: map<string, string>, regs: seq<Registration>, locks: map<string, LockRecord>,
                         req: DownloadRequest, now: int, formatTime: int -> string, e: string)
    requires e in locks && locks[e].vCardsDownloaded
    ensures var locks' := DownloadSpec(env, regs, locks, req, now, formatTime).1;
      e in locks' && locks'[e] == locks[e]
  {
  }

  /** A request that hands out the cards leaves the event's lock claimed. */
  lemma CardsClaimLock(env: map<string, string>, regs: seq<Registration>, locks: map<string, LockRecord>,
                       req: DownloadRequest, now: int, formatTime: int -> string)
    requires var reply := DownloadSpec(env, regs, locks, req, now, formatTime).0;
      reply.Exported? && reply.vcf.Some?
    ensures !(req.eventName in locks && locks[req.eventName].vCardsDownloaded)
    ensures var locks' := DownloadSpec(env, regs, locks, req, now, formatTime).1;
      req.eventName in locks' && locks'[req.eventName].vCardsDownloaded
  {
  }

  /** A run of downloads, one after another, against the same registrations:
      every reply, and the lock table at the end. */
  function RunDownloads(env: map<string, string>, regs: seq<Registration>, locks: map<string, LockRecord>,
                        reqs: seq<(DownloadRequest, int)>, formatTime: int -> string): (r: (seq<DownloadReply>, map<string, LockRecord>))
    ensures |r.0| == |reqs|
    decreases |reqs|
  {
    if reqs == [] then ([], locks)
    else
      var step := DownloadSpec(env, regs, locks, reqs[0].0, reqs[0].1, formatTime);
      var rest := RunDownloads(env, regs, step.1, reqs[1..], formatTime);
      ([step.0] + rest.0, rest.1)
  }

  predicate GaveCards(reply: DownloadReply) {
    reply.Exported? && reply.vcf.Some?
  }

  /** After a claimed lock, no later request in a run gets that event's cards. */
  lemma {:induction false} NoCardsAfterClaim(env: map<string, string>, regs: seq<Registration>, locks: map<string, LockRecord>,
                                             reqs: seq<(DownloadRequest, int)>, formatTime: int -> string, e: string)
    requires e in locks && locks[e].vCardsDownloaded
    ensures forall j :: 0 <= j < |reqs| && reqs[j].0.eventName == e ==> !GaveCards(RunDownloads(env, regs, locks, reqs, formatTime).0[j])
    decreases |reqs|
  {
    if reqs != [] {
      var step := DownloadSpec(env, regs, locks, reqs[0].0, reqs[0].1, formatTime);
      ClaimedLockKept(env, regs, locks, reqs[0].0, reqs[0].1, formatTime, e);
      NoCardsAfterClaim(env, regs, step.1, reqs[1..], formatTime, e);
      var run := RunDownloads(env, regs, locks, reqs, formatTime).0;
      forall j | 0 <= j < |reqs| && reqs[j].0.eventName == e ensures !GaveCards(run[j]) {
        if j == 0 {
          if GaveCards(step.0) {
            CardsClaimLock(env, regs, locks, reqs[0].0, reqs[0].1, formatTime);
          }
        } else {
          assert run[j] == RunDownloads(env, regs, step.1, reqs[1..], formatTime).0[j - 1];
        }
      }
    }
  }

  /** When the first request of a run gets an event's cards, no later one does. */
  lemma FirstCardsAreTheOnly(env: map<string, string>, regs: seq<Registration>, locks: map<string, LockRecord>,
                             reqs: seq<(DownloadRequest, int)>, formatTime: int -> string)
    requires reqs != [] && GaveCards(RunDownloads(env, regs, locks, reqs, formatTime).0[0])
    ensures var replies := RunDownloads(env, regs, locks, reqs, formatTime).0;
      forall j :: 0 < j < |reqs| && reqs[j].0.eventName == reqs[0].0.eventName ==> !GaveCards(replies[j])
  {
    var step := DownloadSpec(env, regs, locks, reqs[0].0, reqs[0].1, formatTime);
    var tail := reqs[1..];
    var e := reqs[0].0.eventName;
    CardsClaimLock(env, regs, locks, reqs[0].0, reqs[0].1, formatTime);
    NoCardsAfterClaim(env, regs, step.1, tail, formatTime, e);
    var replies := RunDownloads(env, regs, locks, reqs, formatTime).0;
    var later := RunDownloads(env, regs, step.1, tail, formatTime).0;
    forall j | 0 < j < |reqs| && reqs[j].0.eventName == e ensures !GaveCards(replies[j]) {
      assert tail[j - 1] == reqs[j];
      assert replies[j] == later[j - 1];
    }
  }

  /** The replies after the first are those of the run that starts from
      the first request's lock table. */
  lemma RunTail(env: map<string, string>, regs: seq<Registration>, locks: map<string, LockRecord>,
                reqs: seq<(DownloadRequest, int)>, formatTime: int -> string, locks': map<string, LockRecord>)
    requires reqs != [] && locks' == DownloadSpec(env, regs, locks, reqs[0].0, reqs[0].1, formatTime).1
    ensures forall j :: 0 < j < |reqs| ==>
      RunDownloads(env, regs, locks, reqs, formatTime).0[j] == RunDownloads(env, regs, locks', reqs[1..], formatTime).0[j - 1]
  {
  }

  /** However many coordinators ask, in whatever order, no two requests
      naming the event the same way both receive the contact cards. The lock
      record is keyed by the name as sent, so this is exclusivity per lock
      key: a name with extra white space finds the same registrations under
      another record (see `PaddedRunGivesCardsTwice`). */
  lemma {:induction false} CardsAtMostOncePerEvent(env: map<string, string>, regs: seq<Registration>, locks: map<string, LockRecord>,
                                                   reqs: seq<(DownloadRequest, int)>, formatTime: int -> string, i: nat, j: nat)
    requires i < j < |reqs| && reqs[i].0.eventName == reqs[j].0.eventName
    ensures var replies := RunDownloads(env, regs, locks, reqs, formatTime).0;
      !(GaveCards(replies[i]) && GaveCards(replies[j]))
    decreases i
  {
    var replies := RunDownloads(env, regs, locks, reqs, formatTime).0;
    if i == 0 {
      if GaveCards(replies[0]) {
        FirstCardsAreTheOnly(env, regs, locks, reqs, formatTime);
      }
    } else {
      var locks' := DownloadSpec(env, regs, locks, reqs[0].0, reqs[0].1, formatTime).1;
      RunTail(env, regs, locks, reqs, formatTime, locks');
      CardsAtMostOncePerEvent(env, regs, locks', reqs[1..], formatTime, i - 1, j - 1);
    }
  }

  /** The sheet holds one row per registration of the event, each filed
      under the sheet's columns. */
  lemma SheetCoversEvent(regs: seq<Registration>, eventName: string)
    ensures var rs := EventRegistrations(regs, eventName);
      var sheet := SheetFor(rs);
      && |sheet.rows| == |rs|
      && |sheet.columns| == 6 + 3 * MaxTeamSize(rs)
      && forall i, k :: 0 <= i < |rs| && k in sheet.rows[i] ==> HasColumn(sheet.columns, k)
  {
    var rs := EventRegistrations(regs, eventName);
    forall i | 0 <= i < |rs| ensures forall k :: k in RowFor(rs[i]) ==> HasColumn(ColumnsFor(MaxTeamSize(rs)), k) {
      RowsFitColumns(rs, rs[i]);
    }
  }
}
