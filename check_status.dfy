/** The status lookup of routes/checkStatus.js: a team finds its own
    registration by receipt ID or by any roll it holds, and sees only the
    public part of it. */
module CheckStatus {
  import opened Wrappers
  import opened Text
  import opened RegisterModel
  import opened RegisterHooks
  import opened DocumentStore

  /** The request body; any field may be absent. */
  datatype StatusRequest = StatusRequest(eventName: Option<string>, searchField: Option<string>, searchValue: Option<string>)

  /** What the lookup matches on, besides the event. */
  datatype Query = ByReceipt(receiptId: string) | ByRoll(roll: string)

  /** The fields a team is shown. */
  datatype PublicView = PublicView(
    eventName: string,
    teamName: string,
    receiptId: string,
    participantType: ParticipantType,
    capName: string,
    capPhone: string,
    capRoll: Option<string>,
    teamMembers: seq<Member>)

  datatype StatusReply = Found(data: PublicView) | StatusError(code: int, error: string)

  const InvalidEventMessage := "Invalid Event"
  const MissingFieldsMessage := "Missing Required Fields"
  const InvalidFieldMessage := " Invalid Search Field"
  const NotFoundMessage := "No registration found with these details."

  /** The query for a search field, or `None` for a field the route does
      not know. */
  function QueryFor(searchField: string, searchValue: string): (q: Option<Query>)
    ensures q.Some? <==> searchField == "receiptID" || searchField == "RollNo"
  {
    if searchField == "receiptID" then Some(ByReceipt(Trim(searchValue)))
    else if searchField == "RollNo" then Some(ByRoll(NormRoll(searchValue)))
    else None
  }

  predicate HoldsRoll(x: Registration, roll: string) {
    x.capRoll == Some(roll) || exists m :: m in x.teamMembers && m.memRoll == Some(roll)
  }

  /** The query document `{ eventName, receiptId }` or
      `{ eventName, $or: [{ capRoll }, { "teamMembers.memRoll" }] }`. */
  predicate Matches(x: Registration, eventName: string, q: Query) {
    x.eventName == eventName &&
    match q
    case ByReceipt(id) => x.receiptId == id
    case ByRoll(roll) => HoldsRoll(x, roll)
  }

  /** `findOne`: the first match in store order. */
  function FindOne(regs: seq<Registration>, eventName: string, q: Query): (r: Option<nat>)
    ensures r.Some? ==> (r.value < |regs| && Matches(regs[r.value], eventName, q)
      && forall i :: 0 <= i < r.value ==> !Matches(regs[i], eventName, q))
    ensures r.None? ==> forall x :: x in regs ==> !Matches(x, eventName, q)
  {
    if regs == [] then None
    else if Matches(regs[0], eventName, q) then Some(0)
    else
      match FindOne(regs[1..], eventName, q)
      case Some(i) => Some(i + 1)
      case None => None
  }

  /** The reply's `data`: the stored fields except the device fingerprint,
      the payment screenshot, the status and the time of registration. */
  function Project(x: Registration): PublicView {
    PublicView(x.eventName, x.teamName, x.receiptId, x.participantType, x.capName, x.capPhone, x.capRoll, x.teamMembers)
  }

  /** The route's reply. */
  function CheckStatusReply(allowed: set<string>, regs: seq<Registration>, req: StatusRequest): StatusReply {
    if req.eventName.None? || req.eventName.value !in allowed then StatusError(400, InvalidEventMessage)
    else if !Truthy(req.searchValue) || !Truthy(req.searchField) then StatusError(400, MissingFieldsMessage)
    else
      match QueryFor(req.searchField.value, req.searchValue.value)
      case None => StatusError(400, InvalidFieldMessage)
      case Some(q) =>
        match FindOne(regs, req.eventName.value, q)
        case None => StatusError(400, NotFoundMessage)
        case Some(i) => Found(Project(regs[i]))
  }

  // ---------------------------------------------------------------------
  // Properties

  /** The checks run in order: event, then both fields present, then a
      known field; each failure answers 400 without looking at the store. */
  lemma GuardsInOrder(allowed: set<string>, regs: seq<Registration>, req: StatusRequest)
    ensures (req.eventName.None? || req.eventName.value !in allowed) ==>
      CheckStatusReply(allowed, regs, req) == StatusError(400, InvalidEventMessage)
    ensures (req.eventName.Some? && req.eventName.value in allowed && (!Truthy(req.searchValue) || !Truthy(req.searchField))) ==>
      CheckStatusReply(allowed, regs, req) == StatusError(400, MissingFieldsMessage)
    ensures (req.eventName.Some? && req.eventName.value in allowed && Truthy(req.searchValue) && Truthy(req.searchField)
      && req.searchField.value != "receiptID" && req.searchField.value != "RollNo") ==>
      CheckStatusReply(allowed, regs, req) == StatusError(400, InvalidFieldMessage)
    ensures CheckStatusReply(allowed, regs, req).StatusError? ==> CheckStatusReply(allowed, regs, req).code == 400
  {
  }

  /** A well-formed search of an allowed event finds something exactly when
      some registration of that event matches, and then shows the first
      one; a search never reaches another event's registrations. */
  lemma FoundIffMatch(allowed: set<string>, regs: seq<Registration>, e: string, field: string, value: string)
    requires e in allowed && value != "" && (field == "receiptID" || field == "RollNo")
    ensures var q := QueryFor(field, value).value;
      var reply := CheckStatusReply(allowed, regs, StatusRequest(Some(e), Some(field), Some(value)));
      && (reply.Found? <==> exists x :: x in regs && Matches(x, e, q))
      && (reply.Found? ==> reply.data.eventName == e && exists i :: 0 <= i < |regs| && Matches(regs[i], e, q) && reply.data == Project(regs[i]))
      && (reply.StatusError? ==> reply == StatusError(400, NotFoundMessage))
  {
    var q := QueryFor(field, value).value;
    match FindOne(regs, e, q)
    case Some(i) =>
      assert regs[i] in regs;
    case None =>
  }

  /** Under the unique receipt index a receipt search shows exactly the
      registration holding that receipt, however the ID is padded. */
  lemma ReceiptLookup(allowed: set<string>, regs: seq<Registration>, k: nat, value: string)
    requires IndexesHold(regs)
    requires k < |regs| && regs[k].eventName in allowed && value != "" && Trim(value) == regs[k].receiptId
    ensures CheckStatusReply(allowed, regs, StatusRequest(Some(regs[k].eventName), Some("receiptID"), Some(value)))
      == Found(Project(regs[k]))
  {
    var e := regs[k].eventName;
    var q := ByReceipt(Trim(value));
    assert Matches(regs[k], e, q);
    assert regs[k] in regs;
    var i := FindOne(regs, e, q).value;
    ReceiptsDiffer(regs, i, k);
    assert i == k;
    FoundReply(allowed, regs, e, "receiptID", value, k);
  }

  /** A well-formed search whose `findOne` picks position `i` shows that
      registration. */
  lemma FoundReply(allowed: set<string>, regs: seq<Registration>, e: string, field: string, value: string, i: nat)
    requires e in allowed && value != "" && (field == "receiptID" || field == "RollNo")
    requires FindOne(regs, e, QueryFor(field, value).value) == Some(i)
    ensures i < |regs|
    ensures CheckStatusReply(allowed, regs, StatusRequest(Some(e), Some(field), Some(value))) == Found(Project(regs[i]))
  {
  }

  /** Under the unique receipt index distinct positions hold distinct
      receipts. */
  lemma ReceiptsDiffer(regs: seq<Registration>, i: nat, k: nat)
    requires IndexesHold(regs) && i < |regs| && k < |regs|
    ensures i != k ==> regs[i].receiptId != regs[k].receiptId
  {
    if i < k {
      assert !Collides(ReceiptIdIndex, regs[i], regs[k]);
    } else if k < i {
      assert !Collides(ReceiptIdIndex, regs[k], regs[i]);
    }
  }

  /** A roll search shows, within the event, the first registration whose
      captain or member carries the roll after trimming and upper-casing the
      search value; for an INTERNAL team of a consistent store that is the
      team itself, unless an EXTERNAL team of the event declared the same
      roll, which registration never checks. */
  lemma RollLookup(allowed: set<string>, regs: seq<Registration>, k: nat, value: string)
    requires InternalRollsUnique(regs) && forall x :: x in regs ==> Conforms(x)
    requires k < |regs| && regs[k].eventName in allowed && regs[k].participantType == Internal
    requires value != "" && HoldsRoll(regs[k], NormRoll(value))
    requires forall i :: 0 <= i < |regs| && regs[i].eventName == regs[k].eventName && regs[i].participantType == External ==>
                         !HoldsRoll(regs[i], NormRoll(value))
    ensures CheckStatusReply(allowed, regs, StatusRequest(Some(regs[k].eventName), Some("RollNo"), Some(value)))
      == Found(Project(regs[k]))
  {
    var x := regs[k];
    var roll := NormRoll(value);
    var q := ByRoll(roll);
    assert Matches(x, x.eventName, q);
    var i := FindOne(regs, x.eventName, q).value;
    if i != k {
      var y := regs[i];
      assert y in regs && x in regs;
      assert y.participantType == Internal;
      HeldRollIsChecked(x, roll);
      HeldRollIsChecked(y, roll);
    }
    FoundReply(allowed, regs, x.eventName, "RollNo", value, k);
  }

  /** A roll an INTERNAL registration holds is among the rolls the
      registration hooks compare. */
  lemma HeldRollIsChecked(x: Registration, roll: string)
    requires Conforms(x) && x.participantType == Internal && HoldsRoll(x, roll)
    ensures roll in Rolls(x)
  {
    if x.capRoll != Some(roll) {
      var m :| m in x.teamMembers && m.memRoll == Some(roll);
      assert roll in MemberRolls(x.teamMembers);
    }
  }

  /** What a team is shown does not depend on its fingerprint, payment
      screenshot, status or registration time. */
  lemma ProjectionHidesPrivateFields(x: Registration, fp: Option<string>, shot: Option<string>, st: Status, at: int)
    ensures Project(x) == Project(x.(deviceFingerprint := fp, paymentScreenshot := shot, status := st, createdAt := at))
    ensures Project(x).receiptId == x.receiptId && Project(x).teamMembers == x.teamMembers
  {
  }
}
