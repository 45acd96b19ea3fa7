/** The registration route of routes/registers.js: payload preparation, the
    ordered guards, the save, and the mapping of outcomes to responses. The
    captcha verdict and the allowed-event set are parameters. */
module Registers {
  import opened Wrappers
  import opened Text
  import opened RegisterModel
  import opened RegisterHooks
  import opened DocumentStore

  /** A request: the parsed body and, for a multipart upload, the stored
      screenshot's path. */
  datatype Request = Request(body: Payload, file: Option<string>)

  const FormDataError := "Invalid Data Format: Could not parse FormData JSON"

  /** `JSON.parse` of a multipart text field, or `[]` when it is empty. A value
      that is already a list is not text, and parsing its string form throws. */
  function ParseMembersField(f: MembersField): Option<MembersField> {
    match f
    case NoMembers => Some(Members([]))
    case Members(_) => None
    case Encoded(parsed) => if parsed.Some? then Some(Members(parsed.value)) else None
  }

  /** `prepareRegistrationPayload`: a multipart request gets its JSON fields
      parsed, the screenshot path, and participant type EXTERNAL; a JSON
      request is passed through unchanged. */
  function PreparePayload(req: Request): (r: Result<Payload, string>)
    ensures req.file.None? ==> r == Success(req.body)
    ensures req.file.Some? ==>
      (r.Failure? <==> ParseMembersField(req.body.teamMembers).None? || req.body.captain == Serialized(false))
    ensures r.Failure? ==> r.error == FormDataError
    ensures req.file.Some? && r.Success? ==>
      && r.value.participantType == Some("EXTERNAL")
      && r.value.paymentScreenshot == req.file
      && r.value.teamMembers == ParseMembersField(req.body.teamMembers).value
      && r.value.teamMembers.Members?
      && r.value.(teamMembers := req.body.teamMembers, participantType := req.body.participantType,
                  paymentScreenshot := req.body.paymentScreenshot) == req.body
  {
    match req.file
    case None => Success(req.body)
    case Some(path) =>
      var members := ParseMembersField(req.body.teamMembers);
      if members.None? || req.body.captain == Serialized(false) then Failure(FormDataError)
      else Success(req.body.(teamMembers := members.value, paymentScreenshot := Some(path),
                             participantType := Some("EXTERNAL")))
  }

  /** `countDocuments({deviceFingerprint})`, across every event. */
  function DeviceCount(regs: seq<Registration>, fp: string): (n: nat)
    ensures n <= |regs|
  {
    if regs == [] then 0
    else DeviceCount(regs[..|regs| - 1], fp) + (if regs[|regs| - 1].deviceFingerprint == Some(fp) then 1 else 0)
  }

  const DeviceLimit := 5

  datatype ReplyBody =
    | Accepted(message: string, receiptId: string, status: string)
    | Refused(error: string)

  /** An HTTP response, or `StillGenerating` when the supplied random draws
      ran out before the receipt loop found a free ID. */
  datatype Reply = Reply(code: int, body: ReplyBody) | StillGenerating

  const RollTakenMessage := "This Roll Number is already registered for this event."
  const PhoneTakenMessage := "Duplicate Registration: This Captain/Phone is already registered for this event."
  const ConflictMessage := "A team member or the captain is already registered in this event"
  const ValidationMessage := "registerModel validation failed"

  /** `${member.memName}` of a member that may lack a name. */
  function NameText(o: Option<string>): string { o.GetOr("undefined") }

  function SelfCheckMessage(e: SelfCheckError): string {
    match e
    case RepeatedPhone(_, name) => "Duplicate phone number found for member " + NameText(name)
    case RepeatedRoll(_, name) => "Duplicate roll number found for member " + NameText(name)
  }

  /** The 409 message as written: it looks only at the first field of the
      violated index's key pattern. */
  function ClassifyAsWritten(k: IndexKey): string {
    if KeyPattern(k)[0] == "capRoll" then RollTakenMessage else PhoneTakenMessage
  }

  /** The 409 message as intended: the roll message for a clash on the
      index that contains `capRoll`. */
  function Classify(k: IndexKey): (m: string)
    ensures m == RollTakenMessage <==> "capRoll" in KeyPattern(k)
    ensures m == RollTakenMessage || m == PhoneTakenMessage
  {
    if "capRoll" in KeyPattern(k) then RollTakenMessage else PhoneTakenMessage
  }

  /** The compound roll index reports "eventName" first, so the roll message
      as written is never produced, even for a roll clash. */
  lemma ClassifyAsWrittenMissesRolls()
    ensures forall k :: ClassifyAsWritten(k) == PhoneTakenMessage
    ensures ClassifyAsWritten(EventCapRollIndex) != Classify(EventCapRollIndex)
  {
    forall k ensures ClassifyAsWritten(k) == PhoneTakenMessage {
      assert KeyPattern(k)[0] != "capRoll";
    }
  }

  /** With the intended classification, a clash is reported as a roll clash
      exactly when it is on the roll index. */
  lemma ClassifyDistinguishesRolls(k: IndexKey)
    ensures Classify(k) == RollTakenMessage <==> k == EventCapRollIndex
  {
  }

  /** The catch block as written: a duplicate key is 409 with the message
      `ClassifyAsWritten` picks, which is the captain/phone message for every
      index; every other failure is 400 with the error's own message. */
  function SaveErrorReply(e: SaveError): (rep: Reply)
    ensures e.ReceiptsExhausted? <==> rep.StillGenerating?
    ensures rep.Reply? ==> (rep.code == 409 <==> e.DuplicateKey?) && (rep.code == 409 || rep.code == 400)
    ensures e.DuplicateKey? ==> rep == Reply(409, Refused(PhoneTakenMessage))
    ensures e.AlreadyRegistered? ==> rep == Reply(400, Refused(ConflictMessage))
    ensures e.SubmissionRepeat? ==> rep == Reply(400, Refused(SelfCheckMessage(e.repeat)))
    ensures e.ValidationFailed? ==> rep == Reply(400, Refused(ValidationMessage))
  {
    match e
    case SubmissionRepeat(se) => Reply(400, Refused(SelfCheckMessage(se)))
    case ValidationFailed => Reply(400, Refused(ValidationMessage))
    case AlreadyRegistered => Reply(400, Refused(ConflictMessage))
    case ReceiptsExhausted => StillGenerating
    case DuplicateKey(k) =>
      ClassifyAsWrittenMissesRolls();
      Reply(409, Refused(ClassifyAsWritten(k)))
  }

  /** The catch block as intended: the same replies, except that a duplicate
      key is classified by `Classify`. */
  function SaveErrorReplyIntended(e: SaveError): Reply {
    match e
    case DuplicateKey(k) => Reply(409, Refused(Classify(k)))
    case _ => SaveErrorReply(e)
  }

  /** The intended catch block answers differently from the one as written
      exactly for a clash on the (eventName, capRoll) index, and there it
      sends the roll message. */
  lemma IntendedReplyDiffersOnlyOnRolls(e: SaveError)
    ensures SaveErrorReplyIntended(e) != SaveErrorReply(e) <==> e == DuplicateKey(EventCapRollIndex)
    ensures e == DuplicateKey(EventCapRollIndex) ==> SaveErrorReplyIntended(e) == Reply(409, Refused(RollTakenMessage))
  {
    if e.DuplicateKey? {
      ClassifyDistinguishesRolls(e.index);
    }
  }

  /** The 201 response: EXTERNAL teams see a placeholder receipt, INTERNAL
      ones the stored receipt and "VERIFIED". */
  function SuccessReply(participantType: Option<string>, r: Registration): Reply {
    if participantType == Some("EXTERNAL") then
      Reply(201, Accepted("Registration Submitted for Verification", "PENDING", "PENDING"))
    else Reply(201, Accepted("Registration Successful", r.receiptId, "VERIFIED"))
  }

  /** The guard chain before the save, on the prepared payload. */
  function Guard(allowed: set<string>, captchaOk: bool, regs: seq<Registration>, p: Payload): Option<Reply> {
    if !(p.eventName.Some? && p.eventName.value in allowed) then Some(Reply(400, Refused("Invalid Event")))
    else if !Truthy(p.teamName) || !Truthy(p.capName) || !Truthy(p.capPhone) || !Truthy(p.deviceFingerprint) then
      Some(Reply(400, Refused("Missing required fields")))
    else if !captchaOk then Some(Reply(400, Refused("captcha verification failed")))
    else if DeviceCount(regs, p.deviceFingerprint.value) >= DeviceLimit then
      Some(Reply(429, Refused("Device Limit Reached: You have registered too many times from this device")))
    else None
  }

  datatype Outcome = Outcome(reply: Reply, saved: Option<Registration>)

  /** The whole POST handler over the stored registrations. */
  function RegisterSpec(allowed: set<string>, captchaOk: bool, regs: seq<Registration>, req: Request,
                        now: int, draws: seq<Draw>): Outcome
  {
    match PreparePayload(req)
    case Failure(msg) => Outcome(Reply(400, Refused(msg)), None)
    case Success(p) =>
      match Guard(allowed, captchaOk, regs, p)
      case Some(rep) => Outcome(rep, None)
      case None => Admit(regs, p, now, draws)
  }

  /** Past the guards: construct the document, save it, and answer. */
  function Admit(regs: seq<Registration>, p: Payload, now: int, draws: seq<Draw>): Outcome {
    match SaveSpec(regs, Construct(p), now, draws)
    case Failure(e) => Outcome(SaveErrorReply(e), None)
    case Success(r) => Outcome(SuccessReply(p.participantType, r), Some(r))
  }

  /** The handler against the store: the store gains the saved registration,
      and only that. */
  method Register(store: Store, allowed: set<string>, captchaOk: bool, req: Request, now: int, draws: seq<Draw>)
    returns (reply: Reply)
    requires store.Valid()
    modifies store
    ensures store.Valid()
    ensures var o := RegisterSpec(allowed, captchaOk, old(store.registrations), req, now, draws);
      && reply == o.reply
      && store.registrations == old(store.registrations) + (if o.saved.Some? then [o.saved.value] else [])
    ensures store.locks == old(store.locks)
  {
    var prepared := PreparePayload(req);
    if prepared.Failure? {
      return Reply(400, Refused(prepared.error));
    }
    var p := prepared.value;
    var blocked := Guard(allowed, captchaOk, store.registrations, p);
    if blocked.Some? {
      return blocked.value;
    }
    var res := store.Save(Construct(p), now, draws);
    if res.Failure? {
      return SaveErrorReply(res.error);
    }
    return SuccessReply(p.participantType, res.value);
  }

  // ---------------------------------------------------------------------
  // Properties of the handler

  /** The guards run in order, and each one that fires saves nothing. */
  lemma GuardsInOrder(allowed: set<string>, captchaOk: bool, regs: seq<Registration>, req: Request,
                      now: int, draws: seq<Draw>)
    requires PreparePayload(req).Success?
    ensures var p := PreparePayload(req).value;
      var o := RegisterSpec(allowed, captchaOk, regs, req, now, draws);
      && (!(p.eventName.Some? && p.eventName.value in allowed) ==>
            o == Outcome(Reply(400, Refused("Invalid Event")), None))
      && (p.eventName.Some? && p.eventName.value in allowed
          && (!Truthy(p.teamName) || !Truthy(p.capName) || !Truthy(p.capPhone) || !Truthy(p.deviceFingerprint)) ==>
            o == Outcome(Reply(400, Refused("Missing required fields")), None))
      && (Guard(allowed, true, regs, p).None? && !captchaOk ==>
            o == Outcome(Reply(400, Refused("captcha verification failed")), None))
      && (Guard(allowed, captchaOk, regs, p).Some? ==> o == Outcome(Guard(allowed, captchaOk, regs, p).value, None))
      && (Guard(allowed, captchaOk, regs, p).Some? ==> o.reply.code == 400 || o.reply.code == 429)
  {
  }

  /** Once the first three guards pass, the request is refused with 429
      exactly when the device already has five registrations, in any events. */
  lemma DeviceLimitGuard(allowed: set<string>, regs: seq<Registration>, p: Payload)
    requires Guard(allowed, false, regs, p) == Some(Reply(400, Refused("captcha verification failed")))
    ensures Guard(allowed, true, regs, p).Some? <==> DeviceCount(regs, p.deviceFingerprint.value) >= DeviceLimit
    ensures Guard(allowed, true, regs, p).Some? ==>
      Guard(allowed, true, regs, p).value
        == Reply(429, Refused("Device Limit Reached: You have registered too many times from this device"))
  {
  }

  /** Nothing is saved for a device that has reached the limit. */
  lemma DeviceLimitEnforced(allowed: set<string>, captchaOk: bool, regs: seq<Registration>, req: Request,
                            now: int, draws: seq<Draw>)
    requires RegisterSpec(allowed, captchaOk, regs, req, now, draws).saved.Some?
    ensures DeviceCount(regs, PreparePayload(req).value.deviceFingerprint.value) < DeviceLimit
  {
    RegisterSavesThroughAdmit(allowed, captchaOk, regs, req, now, draws);
  }

  lemma {:induction false} DeviceCountSnoc(regs: seq<Registration>, r: Registration, fp: string)
    ensures DeviceCount(regs + [r], fp) == DeviceCount(regs, fp) + (if r.deviceFingerprint == Some(fp) then 1 else 0)
  {
    assert (regs + [r])[..|regs|] == regs;
  }

  /** What an admitted payload becomes: the save's own result, with the
      document's fields, including the device fingerprint as submitted. */
  lemma AdmitSaves(regs: seq<Registration>, p: Payload, now: int, draws: seq<Draw>)
    ensures var o := Admit(regs, p, now, draws);
      && (o.saved.Some? <==> SaveSpec(regs, Construct(p), now, draws).Success?)
      && (o.saved.Some? ==>
            && o.saved.value == SaveSpec(regs, Construct(p), now, draws).value
            && o.saved.value.deviceFingerprint == p.deviceFingerprint
            && Some(ParticipantTypeName(o.saved.value.participantType)) == p.participantType
            && o.reply == SuccessReply(p.participantType, o.saved.value))
      && (o.saved.None? ==> o.reply == SaveErrorReply(SaveSpec(regs, Construct(p), now, draws).error))
  {
    var d := Construct(p);
    var s := SaveSpec(regs, d, now, draws);
    if s.Success? {
      SaveStoresValidated(regs, d, now, draws);
    }
  }

  /** The handler saves only past the guards, through `Admit`. */
  lemma RegisterSavesThroughAdmit(allowed: set<string>, captchaOk: bool, regs: seq<Registration>, req: Request,
                                  now: int, draws: seq<Draw>)
    requires RegisterSpec(allowed, captchaOk, regs, req, now, draws).saved.Some?
    ensures PreparePayload(req).Success? && Guard(allowed, captchaOk, regs, PreparePayload(req).value).None?
    ensures RegisterSpec(allowed, captchaOk, regs, req, now, draws)
      == Admit(regs, PreparePayload(req).value, now, draws)
  {
  }

  /** Starting from a store where no device has more than five registrations,
      the handler never takes one past five. */
  lemma DeviceCapPreserved(allowed: set<string>, captchaOk: bool, regs: seq<Registration>, req: Request,
                           now: int, draws: seq<Draw>, fp: string)
    requires DeviceCount(regs, fp) <= DeviceLimit
    ensures var o := RegisterSpec(allowed, captchaOk, regs, req, now, draws);
      DeviceCount(regs + (if o.saved.Some? then [o.saved.value] else []), fp) <= DeviceLimit
  {
    var o := RegisterSpec(allowed, captchaOk, regs, req, now, draws);
    if o.saved.Some? {
      RegisterSavesThroughAdmit(allowed, captchaOk, regs, req, now, draws);
      var p := PreparePayload(req).value;
      AdmitSaves(regs, p, now, draws);
      DeviceCountSnoc(regs, o.saved.value, fp);
    } else {
      assert regs + [] == regs;
    }
  }

  /** Both kinds of success answer 201: EXTERNAL with the placeholders,
      INTERNAL with the stored receipt and "VERIFIED". A 201 always means a
      registration was stored, and every other reply means none was. */
  lemma SuccessReplies(allowed: set<string>, captchaOk: bool, regs: seq<Registration>, req: Request,
                       now: int, draws: seq<Draw>)
    ensures var o := RegisterSpec(allowed, captchaOk, regs, req, now, draws);
      && (o.saved.Some? <==> o.reply.Reply? && o.reply.code == 201)
      && (o.saved.Some? && o.saved.value.participantType == External ==>
            o.reply.body == Accepted("Registration Submitted for Verification", "PENDING", "PENDING"))
      && (o.saved.Some? && o.saved.value.participantType == Internal ==>
            o.reply.body == Accepted("Registration Successful", o.saved.value.receiptId, "VERIFIED"))
  {
    var o := RegisterSpec(allowed, captchaOk, regs, req, now, draws);
    if PreparePayload(req).Success? {
      var p := PreparePayload(req).value;
      var g := Guard(allowed, captchaOk, regs, p);
      if g.None? {
        assert o == Admit(regs, p, now, draws);
        AdmitSaves(regs, p, now, draws);
      } else {
        assert o == Outcome(g.value, None);
        assert g.value.code != 201;
      }
    }
  }

  /** A registration the handler stores has every guarantee of the save: it
      conforms, belongs to an allowed event, shares no phone with its event,
      holds no INTERNAL roll any other team there holds, and has a receipt no
      other registration holds. */
  lemma AdmittedRegistrationIsFresh(allowed: set<string>, captchaOk: bool, regs: seq<Registration>, req: Request,
                                    now: int, draws: seq<Draw>)
    requires RegisterSpec(allowed, captchaOk, regs, req, now, draws).saved.Some?
    ensures var r := RegisterSpec(allowed, captchaOk, regs, req, now, draws).saved.value;
      && Conforms(r) && (exists e :: e in allowed && Trim(e) == r.eventName)
      && (forall x :: x in regs && x.eventName == r.eventName ==>
            !Shares(Phones(x), Phones(r)) && !Shares(AllRolls(x), Rolls(r)))
      && !ReceiptHeld(regs, r.receiptId)
  {
    RegisterSavesThroughAdmit(allowed, captchaOk, regs, req, now, draws);
    var p := PreparePayload(req).value;
    AdmitSaves(regs, p, now, draws);
    var d := Construct(p);
    SaveAdmitsOnlyFresh(regs, d, now, draws);
    SaveStoresValidated(regs, d, now, draws);
    var r := SaveSpec(regs, d, now, draws).value;
    assert Some(r.eventName) == d.eventName == TrimOpt(p.eventName);
    assert p.eventName.value in allowed && Trim(p.eventName.value) == r.eventName;
  }

  /** Every failure of the save is reported with the matching status: 409 and
      the captain/phone message for any duplicate key, 400 for the rest (the submission's own repeats,
      validation, conflicts with the event). */
  lemma SaveErrorsMapped(allowed: set<string>, captchaOk: bool, regs: seq<Registration>, req: Request,
                         now: int, draws: seq<Draw>)
    requires PreparePayload(req).Success?
    requires Guard(allowed, captchaOk, regs, PreparePayload(req).value).None?
    ensures var p := PreparePayload(req).value;
      var o := RegisterSpec(allowed, captchaOk, regs, req, now, draws);
      match SaveSpec(regs, Construct(p), now, draws)
      case Success(r) => o.saved == Some(r)
      case Failure(e) =>
        && o.saved.None?
        && (e.DuplicateKey? ==> o.reply == Reply(409, Refused(PhoneTakenMessage)))
        && (e.AlreadyRegistered? ==> o.reply == Reply(400, Refused(ConflictMessage)))
        && (e.SubmissionRepeat? ==> o.reply == Reply(400, Refused(SelfCheckMessage(e.repeat))))
        && (e.ValidationFailed? ==> o.reply == Reply(400, Refused(ValidationMessage)))
  {
  }
}
