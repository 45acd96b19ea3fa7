/** The registration document of models/registerModel.js: the two field
    patterns, the setters and defaults Mongoose applies when a document is
    built from the submitted data, the schema validators, and the three
    unique indexes the store enforces at insert. */
module RegisterModel {
  import opened Wrappers
  import opened Text

  /** `mobileRegex`, /^[6-9]\d{9}$/: ten digits, the first one 6 to 9. */
  predicate IsMobile(s: string) {
    |s| == 10 && '6' <= s[0] <= '9' && forall i :: 1 <= i < 10 ==> IsDigit(s[i])
  }

  /** `rollRegex`, /^[0-9]{4}[A-Z]{3}[0-9]{3}$/: four digits, three capitals, three digits. */
  predicate IsRoll(s: string) {
    && |s| == 10
    && (forall i :: 0 <= i < 4 ==> IsDigit(s[i]))
    && (forall i :: 4 <= i < 7 ==> IsUpper(s[i]))
    && (forall i :: 7 <= i < 10 ==> IsDigit(s[i]))
  }

  /** The `trim` and `uppercase` setters of `capRoll` and `memRoll`
      (Mongoose runs a path's setters last-declared first: trim, then upper-case). */
  function NormRoll(s: string): string { ToUpper(Trim(s)) }

  lemma NormRollIdempotent(s: string)
    ensures NormRoll(NormRoll(s)) == NormRoll(s)
  {
    ToUpperUnpadded(Trim(s));
    ToUpperIdempotent(Trim(s));
  }

  /** A roll that already matches the pattern is left as it is by the setters. */
  lemma NormRollOfRoll(s: string)
    requires IsRoll(s)
    ensures NormRoll(s) == s
  {
    TrimUnpadded(s);
    assert ToUpper(s) == s;
  }

  /** A valid mobile number consists of digits only. */
  lemma MobileIsDigits(s: string)
    requires IsMobile(s)
    ensures forall i :: 0 <= i < |s| ==> IsDigit(s[i])
    ensures KeepDigits(s) == s
  {
    KeepDigitsOfDigits(s);
  }

  datatype ParticipantType = Internal | External
  datatype Status = Verified | Pending | Rejected

  function ParticipantTypeName(t: ParticipantType): string {
    match t
    case Internal => "INTERNAL"
    case External => "EXTERNAL"
  }

  function StatusName(s: Status): string {
    match s
    case Verified => "VERIFIED"
    case Pending => "PENDING"
    case Rejected => "REJECTED"
  }

  /** The `enum` validator of `participantType`. */
  function ParseParticipantType(o: Option<string>): (r: Option<ParticipantType>)
    ensures r.Some? <==> o == Some("INTERNAL") || o == Some("EXTERNAL")
    ensures r.Some? ==> o == Some(ParticipantTypeName(r.value))
  {
    if o == Some("INTERNAL") then Some(Internal)
    else if o == Some("EXTERNAL") then Some(External)
    else None
  }

  /** The `enum` validator of `status`. */
  function ParseStatus(o: Option<string>): (r: Option<Status>)
    ensures r.Some? <==> o == Some("VERIFIED") || o == Some("PENDING") || o == Some("REJECTED")
    ensures r.Some? ==> o == Some(StatusName(r.value))
  {
    if o == Some("VERIFIED") then Some(Verified)
    else if o == Some("PENDING") then Some(Pending)
    else if o == Some("REJECTED") then Some(Rejected)
    else None
  }

  /** A team member as submitted; any field may be missing. */
  datatype MemberInput = MemberInput(memName: Option<string>, memPhone: Option<string>, memRoll: Option<string>)

  /** The `teamMembers` value of the submitted data: absent, a list, or (in a
      multipart form) non-empty JSON text, given by the outcome of parsing it
      (`None` when `JSON.parse` throws). */
  datatype MembersField = NoMembers | Members(list: seq<MemberInput>) | Encoded(parsed: Option<seq<MemberInput>>)

  /** A JSON-encoded multipart text field that only matters through whether it parses. */
  datatype JsonField = Absent | Serialized(parses: bool)

  /** The data object handed to `new registerModel(data)`. `captchaToken` and
      `captain` are not schema paths: strict mode discards them. */
  datatype Payload = Payload(
    eventName: Option<string>,
    teamName: Option<string>,
    capName: Option<string>,
    capPhone: Option<string>,
    capRoll: Option<string>,
    teamMembers: MembersField,
    captain: JsonField,
    captchaToken: Option<string>,
    deviceFingerprint: Option<string>,
    participantType: Option<string>,
    receiptId: Option<string>,
    paymentScreenshot: Option<string>,
    status: Option<string>)

  /** The document after construction: setters and defaults applied, not yet validated. */
  datatype Doc = Doc(
    eventName: Option<string>,
    teamName: Option<string>,
    capName: Option<string>,
    capPhone: Option<string>,
    capRoll: Option<string>,
    teamMembers: seq<MemberInput>,
    membersCastFailed: bool,
    participantType: Option<string>,
    deviceFingerprint: Option<string>,
    receiptId: Option<string>,
    paymentScreenshot: Option<string>,
    status: Option<string>)

  /** A stored team member. */
  datatype Member = Member(memName: string, memPhone: string, memRoll: Option<string>)

  /** A stored registration. An empty `receiptId` stands for an unset one (both are falsy). */
  datatype Registration = Registration(
    eventName: string,
    teamName: string,
    capName: string,
    capPhone: string,
    capRoll: Option<string>,
    teamMembers: seq<Member>,
    participantType: ParticipantType,
    deviceFingerprint: Option<string>,
    receiptId: string,
    paymentScreenshot: Option<string>,
    status: Status,
    createdAt: int)

  function TrimOpt(o: Option<string>): Option<string> {
    match o
    case Some(s) => Some(Trim(s))
    case None => None
  }

  function NormRollOpt(o: Option<string>): Option<string> {
    match o
    case Some(s) => Some(NormRoll(s))
    case None => None
  }

  function BuildMember(m: MemberInput): MemberInput {
    MemberInput(TrimOpt(m.memName), m.memPhone, NormRollOpt(m.memRoll))
  }

  /** The `status` default: VERIFIED for an INTERNAL team, otherwise PENDING. */
  function DefaultStatus(participantType: Option<string>): string {
    if participantType == Some("INTERNAL") then "VERIFIED" else "PENDING"
  }

  /** `new registerModel(data)`: trims `eventName`, `teamName`, `capName` and
      `memName`, normalises the rolls, defaults `teamMembers` to `[]` and an
      absent `status`. Text in `teamMembers` cannot be cast to sub-documents:
      the path stays empty and validation will fail. */
  function Construct(p: Payload): (d: Doc)
    ensures d.membersCastFailed <==> p.teamMembers.Encoded?
    ensures d.status.Some?
  {
    var ms := match p.teamMembers
      case Members(list) => seq(|list|, i requires 0 <= i < |list| => BuildMember(list[i]))
      case _ => [];
    Doc(TrimOpt(p.eventName), TrimOpt(p.teamName), TrimOpt(p.capName), p.capPhone,
        NormRollOpt(p.capRoll), ms, p.teamMembers.Encoded?, p.participantType,
        p.deviceFingerprint, p.receiptId, p.paymentScreenshot,
        if p.status.None? then Some(DefaultStatus(p.participantType)) else p.status)
  }

  predicate UnpaddedOpt(o: Option<string>) {
    o.Some? ==> Unpadded(o.value)
  }

  /** A member input already in stored form. */
  predicate CanonicalMember(m: MemberInput) {
    UnpaddedOpt(m.memName) && (m.memRoll.Some? ==> IsRoll(m.memRoll.value))
  }

  lemma TrimOptUnpadded(o: Option<string>)
    requires UnpaddedOpt(o)
    ensures TrimOpt(o) == o
  {
    if o.Some? {
      TrimUnpadded(o.value);
    }
  }

  /** Construction changes nothing in a payload that is already in the
      stored form: names without surrounding white space, rolls that match
      the pattern, a list of members. Only the default status is filled in. */
  lemma ConstructCanonical(p: Payload, ms: seq<MemberInput>)
    requires p.teamMembers == Members(ms)
    requires UnpaddedOpt(p.eventName) && UnpaddedOpt(p.teamName) && UnpaddedOpt(p.capName)
    requires p.capRoll.Some? ==> IsRoll(p.capRoll.value)
    requires forall m :: m in ms ==> CanonicalMember(m)
    ensures Construct(p) == Doc(p.eventName, p.teamName, p.capName, p.capPhone, p.capRoll, ms, false,
                                p.participantType, p.deviceFingerprint, p.receiptId, p.paymentScreenshot,
                                if p.status.None? then Some(DefaultStatus(p.participantType)) else p.status)
  {
    TrimOptUnpadded(p.eventName);
    TrimOptUnpadded(p.teamName);
    TrimOptUnpadded(p.capName);
    if p.capRoll.Some? {
      NormRollOfRoll(p.capRoll.value);
    }
    forall i | 0 <= i < |ms| ensures BuildMember(ms[i]) == ms[i] {
      assert ms[i] in ms;
      BuildMemberCanonical(ms[i]);
    }
    assert seq(|ms|, i requires 0 <= i < |ms| => BuildMember(ms[i])) == ms;
  }

  lemma BuildMemberCanonical(m: MemberInput)
    requires CanonicalMember(m)
    ensures BuildMember(m) == m
  {
    TrimOptUnpadded(m.memName);
    if m.memRoll.Some? {
      NormRollOfRoll(m.memRoll.value);
    }
  }

  /** The `match` validator passes for a missing or empty value. */
  predicate MatchesIfSet(o: Option<string>, pattern: string -> bool) {
    o.None? || o.value == "" || pattern(o.value)
  }

  /** The validators of one team member: `memName` and `memPhone` required,
      `memRoll` required when the parent is INTERNAL, both patterns checked. */
  predicate MemberConforms(m: MemberInput, internal: bool) {
    && Truthy(m.memName)
    && Truthy(m.memPhone) && IsMobile(m.memPhone.value)
    && (internal ==> Truthy(m.memRoll))
    && MatchesIfSet(m.memRoll, IsRoll)
  }

  /** Every schema validator of the registration. */
  predicate DocConforms(d: Doc) {
    var internal := d.participantType == Some("INTERNAL");
    && Truthy(d.eventName) && Truthy(d.teamName) && Truthy(d.capName)
    && Truthy(d.capPhone) && IsMobile(d.capPhone.value)
    && (internal ==> Truthy(d.capRoll))
    && MatchesIfSet(d.capRoll, IsRoll)
    && !d.membersCastFailed
    && (forall i :: 0 <= i < |d.teamMembers| ==> MemberConforms(d.teamMembers[i], internal))
    && ParseParticipantType(d.participantType).Some?
    && (d.participantType == Some("EXTERNAL") ==> Truthy(d.paymentScreenshot))
    && ParseStatus(d.status).Some?
  }

  /** What every validated (and so every stored) registration satisfies. */
  predicate Conforms(r: Registration) {
    var internal := r.participantType == Internal;
    && r.eventName != "" && r.teamName != "" && r.capName != ""
    && IsMobile(r.capPhone)
    && (internal ==> Truthy(r.capRoll))
    && MatchesIfSet(r.capRoll, IsRoll)
    && (forall m :: m in r.teamMembers ==>
          && m.memName != "" && IsMobile(m.memPhone)
          && (internal ==> Truthy(m.memRoll))
          && MatchesIfSet(m.memRoll, IsRoll))
    && (r.participantType == External ==> Truthy(r.paymentScreenshot))
  }

  /** Schema validation. It succeeds exactly when the document passes every
      validator; the registration then carries the document's own values
      unchanged, with no creation time yet. */
  function Validate(d: Doc): (r: Option<Registration>)
    ensures r.Some? <==> DocConforms(d)
    ensures r.Some? ==> Conforms(r.value)
    ensures r.Some? ==>
      && Some(r.value.eventName) == d.eventName
      && Some(r.value.teamName) == d.teamName
      && Some(r.value.capName) == d.capName
      && r.value.deviceFingerprint == d.deviceFingerprint
      && r.value.createdAt == 0
      && Some(r.value.capPhone) == d.capPhone
      && r.value.capRoll == d.capRoll
      && Some(ParticipantTypeName(r.value.participantType)) == d.participantType
      && Some(StatusName(r.value.status)) == d.status
      && r.value.paymentScreenshot == d.paymentScreenshot
      && r.value.receiptId == d.receiptId.GetOr("")
      && |r.value.teamMembers| == |d.teamMembers|
      && (forall i :: 0 <= i < |d.teamMembers| ==>
            && Some(r.value.teamMembers[i].memName) == d.teamMembers[i].memName
            && Some(r.value.teamMembers[i].memPhone) == d.teamMembers[i].memPhone
            && r.value.teamMembers[i].memRoll == d.teamMembers[i].memRoll)
  {
    if !DocConforms(d) then None
    else
      var internal := d.participantType == Some("INTERNAL");
      var ms := d.teamMembers;
      assert forall i :: 0 <= i < |ms| ==> MemberConforms(ms[i], internal);
      var members := seq(|ms|, i requires 0 <= i < |ms| =>
        Member(ms[i].memName.value, ms[i].memPhone.value, ms[i].memRoll));
      var reg := Registration(
        d.eventName.value, d.teamName.value, d.capName.value, d.capPhone.value, d.capRoll,
        members, ParseParticipantType(d.participantType).value, d.deviceFingerprint,
        d.receiptId.GetOr(""), d.paymentScreenshot, ParseStatus(d.status).value, 0);
      assert forall m :: m in reg.teamMembers ==> exists i :: 0 <= i < |ms| && m == members[i];
      Some(reg)
  }

  /** With no `status` submitted, a registration that validates is VERIFIED
      exactly when it is INTERNAL, otherwise PENDING. */
  lemma DefaultStatusByType(p: Payload)
    requires p.status.None? && Validate(Construct(p)).Some?
    ensures Validate(Construct(p)).value.status == if Validate(Construct(p)).value.participantType == Internal then Verified else Pending
  {
  }

  /** `paymentScreenshot` is required exactly for EXTERNAL teams: a valid
      document stays valid without it if and only if it is INTERNAL. */
  lemma ScreenshotRequiredIffExternal(d: Doc)
    requires Validate(d).Some?
    ensures Validate(d.(paymentScreenshot := None)).Some? <==> d.participantType == Some("INTERNAL")
  {
    var d' := d.(paymentScreenshot := None);
    if d.participantType == Some("INTERNAL") {
      assert forall i :: 0 <= i < |d'.teamMembers| ==> d'.teamMembers[i] == d.teamMembers[i];
      assert DocConforms(d');
    }
  }

  /** `capRoll` is required exactly for INTERNAL teams: a valid document stays
      valid without it if and only if it is EXTERNAL. */
  lemma CaptainRollRequiredIffInternal(d: Doc)
    requires Validate(d).Some?
    ensures Validate(d.(capRoll := None)).Some? <==> d.participantType == Some("EXTERNAL")
  {
    var d' := d.(capRoll := None);
    if d.participantType == Some("EXTERNAL") {
      assert forall i :: 0 <= i < |d'.teamMembers| ==> d'.teamMembers[i] == d.teamMembers[i];
      assert DocConforms(d');
    }
  }

  /** `memRoll` is required exactly for members of INTERNAL teams. */
  lemma MemberRollRequiredIffInternal(d: Doc, k: nat)
    requires Validate(d).Some? && k < |d.teamMembers|
    ensures Validate(d.(teamMembers := d.teamMembers[k := d.teamMembers[k].(memRoll := None)])).Some?
            <==> d.participantType == Some("EXTERNAL")
  {
    var ms' := d.teamMembers[k := d.teamMembers[k].(memRoll := None)];
    var d' := d.(teamMembers := ms');
    var internal := d.participantType == Some("INTERNAL");
    assert DocConforms(d);
    if d.participantType == Some("EXTERNAL") {
      forall i | 0 <= i < |ms'| ensures MemberConforms(ms'[i], internal) {
        assert MemberConforms(d.teamMembers[i], internal);
      }
      assert DocConforms(d');
    } else {
      assert !MemberConforms(ms'[k], internal);
    }
  }

  // ---------------------------------------------------------------------
  // Values compared by the duplicate checks

  /** The member phones, in list order. */
  function MemberPhones(ms: seq<Member>): (r: seq<string>)
    ensures |r| == |ms|
    ensures forall i :: 0 <= i < |ms| ==> r[i] == ms[i].memPhone
  {
    if ms == [] then [] else MemberPhones(ms[..|ms| - 1]) + [ms[|ms| - 1].memPhone]
  }

  /** The captain's and every member's phone (`phonesToCheck`). */
  function Phones(r: Registration): seq<string> {
    [r.capPhone] + MemberPhones(r.teamMembers)
  }

  /** The members' non-empty rolls, in list order. */
  function MemberRolls(ms: seq<Member>): (r: seq<string>)
    ensures forall x :: x in r <==> exists m :: m in ms && Truthy(m.memRoll) && m.memRoll.value == x
  {
    if ms == [] then []
    else
      var last := ms[|ms| - 1];
      assert forall m :: m in ms <==> m in ms[..|ms| - 1] || m == last;
      MemberRolls(ms[..|ms| - 1]) + (if Truthy(last.memRoll) then [last.memRoll.value] else [])
  }

  /** Every non-empty roll a registration holds, whatever its type. */
  function AllRolls(r: Registration): seq<string> {
    (if Truthy(r.capRoll) then [r.capRoll.value] else []) + MemberRolls(r.teamMembers)
  }

  /** The rolls the source compares (`rollsToCheck`): none for EXTERNAL teams. */
  function Rolls(r: Registration): seq<string> {
    if r.participantType == Internal then AllRolls(r) else []
  }

  predicate Shares(a: seq<string>, b: seq<string>) {
    exists x :: x in a && x in b
  }

  lemma MemberPhonesContain(ms: seq<Member>, p: string)
    ensures p in MemberPhones(ms) <==> exists m :: m in ms && m.memPhone == p
  {
    var r := MemberPhones(ms);
    if p in r {
      var i :| 0 <= i < |r| && r[i] == p;
      assert ms[i] in ms;
    }
    if exists m :: m in ms && m.memPhone == p {
      var m :| m in ms && m.memPhone == p;
      var i :| 0 <= i < |ms| && ms[i] == m;
      assert r[i] == p;
    }
  }

  // ---------------------------------------------------------------------
  // Unique indexes

  /** The three unique indexes, in the order the store checks them. */
  datatype IndexKey = ReceiptIdIndex | EventCapPhoneIndex | EventCapRollIndex

  /** The index's key pattern, as a duplicate-key error reports it. */
  function KeyPattern(k: IndexKey): seq<string> {
    match k
    case ReceiptIdIndex => ["receiptId"]
    case EventCapPhoneIndex => ["eventName", "capPhone"]
    case EventCapRollIndex => ["eventName", "capRoll"]
  }

  /** Whether two documents hold the same key of index `k`. The capRoll index
      is partial: only documents whose `capRoll` is a string take part. */
  predicate Collides(k: IndexKey, x: Registration, y: Registration) {
    match k
    case ReceiptIdIndex => x.receiptId == y.receiptId
    case EventCapPhoneIndex => x.eventName == y.eventName && x.capPhone == y.capPhone
    case EventCapRollIndex => x.eventName == y.eventName && x.capRoll.Some? && x.capRoll == y.capRoll
  }

  predicate IndexesHold(regs: seq<Registration>) {
    forall i, j, k :: 0 <= i < j < |regs| ==> !Collides(k, regs[i], regs[j])
  }

  /** The first index the new document `r` would break, if any. */
  function IndexViolation(regs: seq<Registration>, r: Registration): (v: Option<IndexKey>)
    ensures v.None? <==> forall x, k :: x in regs ==> !Collides(k, x, r)
    ensures v.Some? ==> exists x :: x in regs && Collides(v.value, x, r)
  {
    if exists x :: x in regs && Collides(ReceiptIdIndex, x, r) then Some(ReceiptIdIndex)
    else if exists x :: x in regs && Collides(EventCapPhoneIndex, x, r) then Some(EventCapPhoneIndex)
    else if exists x :: x in regs && Collides(EventCapRollIndex, x, r) then Some(EventCapRollIndex)
    else
      assert forall x, k :: x in regs ==> !Collides(k, x, r) by {
        forall x, k | x in regs ensures !Collides(k, x, r) {
          assert k == ReceiptIdIndex || k == EventCapPhoneIndex || k == EventCapRollIndex;
        }
      }
      None
  }

  /** An insert the indexes admit keeps every index unique. */
  lemma InsertKeepsIndexes(regs: seq<Registration>, r: Registration)
    requires IndexesHold(regs) && IndexViolation(regs, r).None?
    ensures IndexesHold(regs + [r])
  {
    var t := regs + [r];
    forall i, j, k | 0 <= i < j < |t| ensures !Collides(k, t[i], t[j]) {
      if j == |regs| {
        assert t[i] in regs;
      } else {
        assert t[i] == regs[i] && t[j] == regs[j];
      }
    }
  }

  /** `findOne({receiptId: id})` finds a document. */
  predicate ReceiptHeld(regs: seq<Registration>, id: string) {
    exists x :: x in regs && x.receiptId == id
  }
}
