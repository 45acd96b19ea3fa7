/** Concrete runs of the registration handler. */
module Scenarios {
  import opened Wrappers
  import opened Text
  import opened RegisterModel
  import opened RegisterHooks
  import opened Registers
  import opened ExportData

  const Events: set<string> := {"Chess", "Quiz"}

  /** An EXTERNAL team already registered for Chess; its captain gave a roll. */
  const Rooks := Registration("Chess", "Rooks", "Asha", "9876543210", Some("2023MEB025"), [], External,
                              Some("fp-1"), "CHE-000001", Some("uploads/receipt-1.png"), Pending, 100)

  /** A multipart submission: a different EXTERNAL team for Chess, with a
      different phone but the same captain roll. */
  const KnightsBody := Payload(Some("Chess"), Some("Knights"), Some("Ravi"), Some("9123456780"), Some("2023MEB025"),
                               NoMembers, Absent, Some("token"), Some("fp-2"), None, None, None, None)
  const Knights := Request(KnightsBody, Some("uploads/receipt-2.png"))

  const Draws := [Draw(0xAB, 0xCD, 0xEF)]

  /** The document the handler builds for the Knights: rolls trimmed and
      upper-cased, type forced to EXTERNAL, status defaulted. */
  const KnightsDoc := Doc(Some("Chess"), Some("Knights"), Some("Ravi"), Some("9123456780"), Some("2023MEB025"),
                          [], false, Some("EXTERNAL"), Some("fp-2"), None, Some("uploads/receipt-2.png"), Some("PENDING"))

  const KnightsReg := Registration("Chess", "Knights", "Ravi", "9123456780", Some("2023MEB025"), [], External,
                                   Some("fp-2"), "", Some("uploads/receipt-2.png"), Pending, 0)

  /** What payload preparation makes of the multipart request. */
  const KnightsPayload := KnightsBody.(teamMembers := Members([]), paymentScreenshot := Some("uploads/receipt-2.png"),
                                       participantType := Some("EXTERNAL"))

  lemma KnightsPayloadPrepared()
    ensures PreparePayload(Knights) == Success(KnightsPayload)
  {
  }

  lemma KnightsCanonical()
    ensures UnpaddedOpt(KnightsPayload.eventName) && UnpaddedOpt(KnightsPayload.teamName) && UnpaddedOpt(KnightsPayload.capName)
    ensures IsRoll(KnightsPayload.capRoll.value)
  {
    assert Unpadded("Chess") && Unpadded("Knights") && Unpadded("Ravi");
  }

  lemma KnightsConstructed()
    ensures Construct(KnightsPayload) == KnightsDoc
  {
    KnightsCanonical();
    ConstructCanonical(KnightsPayload, []);
    assert DefaultStatus(Some("EXTERNAL")) == "PENDING";
  }

  lemma KnightsPrepared()
    ensures PreparePayload(Knights) == Success(KnightsPayload)
    ensures Construct(KnightsPayload) == KnightsDoc
  {
    KnightsPayloadPrepared();
    KnightsConstructed();
  }

  lemma KnightsValidates()
    ensures SelfCheck(KnightsDoc) == None
    ensures Validate(KnightsDoc) == Some(KnightsReg)
  {
    assert IsMobile("9123456780");
    assert IsRoll("2023MEB025");
    assert DocConforms(KnightsDoc);
  }

  lemma KnightsMeetNoConflict()
    ensures !ConflictFound(true, [Rooks], KnightsReg)
  {
    assert Rolls(KnightsReg) == [];
    assert MemberPhones([]) == [];
    assert Phones(KnightsReg) == ["9123456780"];
    assert !MatchesConflictQuery(Rooks, "Chess", ["9123456780"], []);
  }

  lemma ChessPrefix()
    ensures ReceiptPrefix("Chess") == "CHE"
  {
    assert KeepAlphanumeric("Chess")[..3] == "Che";
  }

  lemma KnightsReceipt()
    ensures AssignReceipt(true, KnightsReg, [Rooks], Draws) == Some(KnightsReg.(receiptId := "CHE-ABCDEF"))
  {
    ChessPrefix();
    HexDigitsOfAB();
    assert Candidate("CHE", Draws[0]) == "CHE-ABCDEF";
    assert !ReceiptHeld([Rooks], "CHE-ABCDEF");
  }

  /** The two teams pass every hook; only the partial roll index catches them. */
  lemma KnightsHitRollIndex()
    ensures SaveSpec([Rooks], KnightsDoc, 200, Draws) == Failure(DuplicateKey(EventCapRollIndex))
  {
    KnightsValidates();
    KnightsMeetNoConflict();
    KnightsReceipt();
    KnightsStampedHitsRollIndex();
  }

  lemma KnightsStampedHitsRollIndex()
    ensures IndexViolation([Rooks], KnightsReg.(receiptId := "CHE-ABCDEF", createdAt := 200)) == Some(EventCapRollIndex)
  {
    var stamped := KnightsReg.(receiptId := "CHE-ABCDEF", createdAt := 200);
    assert Collides(EventCapRollIndex, Rooks, stamped);
    assert !Collides(ReceiptIdIndex, Rooks, stamped);
    assert !Collides(EventCapPhoneIndex, Rooks, stamped);
    IndexViolationOfOne(Rooks, stamped);
  }

  /** Against a store of one document, the first index it shares with `r`. */
  lemma IndexViolationOfOne(y: Registration, r: Registration)
    ensures IndexViolation([y], r) ==
      if Collides(ReceiptIdIndex, y, r) then Some(ReceiptIdIndex)
      else if Collides(EventCapPhoneIndex, y, r) then Some(EventCapPhoneIndex)
      else if Collides(EventCapRollIndex, y, r) then Some(EventCapRollIndex)
      else None
  {
    assert forall x :: x in [y] <==> x == y;
  }

  lemma KnightsPassGuards()
    ensures Guard(Events, true, [Rooks], KnightsPayload).None?
  {
    assert DeviceCount([Rooks], "fp-2") == 0 by {
      assert [Rooks][..0] == [];
    }
  }

  lemma KnightsRollReply()
    ensures SaveErrorReply(DuplicateKey(EventCapRollIndex)) == Reply(409, Refused(PhoneTakenMessage))
    ensures SaveErrorReplyIntended(DuplicateKey(EventCapRollIndex)) == Reply(409, Refused(RollTakenMessage))
  {
    IntendedReplyDiffersOnlyOnRolls(DuplicateKey(EventCapRollIndex));
  }

  lemma KnightsAdmitReply()
    ensures Admit([Rooks], KnightsPayload, 200, Draws) == Outcome(Reply(409, Refused(PhoneTakenMessage)), None)
  {
    KnightsPrepared();
    KnightsHitRollIndex();
    KnightsRollReply();
  }

  lemma KnightsReachAdmit()
    ensures RegisterSpec(Events, true, [Rooks], Knights, 200, Draws) == Admit([Rooks], KnightsPayload, 200, Draws)
  {
    KnightsPrepared();
    KnightsPassGuards();
  }

  /** The reply to the Knights: the handler as written answers 409 with the
      captain/phone message although the clash is on the roll; the intended
      catch block would send the roll message for the same save error. */
  lemma SharedExternalRollReply()
    ensures RegisterSpec(Events, true, [Rooks], Knights, 200, Draws) == Outcome(Reply(409, Refused(PhoneTakenMessage)), None)
    ensures SaveSpec([Rooks], KnightsDoc, 200, Draws).Failure?
    ensures SaveErrorReplyIntended(SaveSpec([Rooks], KnightsDoc, 200, Draws).error) == Reply(409, Refused(RollTakenMessage))
  {
    KnightsReachAdmit();
    KnightsAdmitReply();
    KnightsHitRollIndex();
    KnightsRollReply();
  }

  /** A JSON submission of an INTERNAL Quiz team with one member. */
  const Meera := MemberInput(Some("Meera"), Some("9000000002"), Some("2022CSE002"))
  const AlphaBody := Payload(Some("Quiz"), Some("Alpha"), Some("Dev"), Some("9000000001"), Some("2022CSE001"),
                             Members([Meera]), Absent, Some("token"), Some("fp-3"), Some("INTERNAL"), None, None, None)
  const Alpha := Request(AlphaBody, None)

  const AlphaDoc := Doc(Some("Quiz"), Some("Alpha"), Some("Dev"), Some("9000000001"), Some("2022CSE001"),
                        [Meera], false, Some("INTERNAL"), Some("fp-3"), None, None, Some("VERIFIED"))
  const AlphaReg := Registration("Quiz", "Alpha", "Dev", "9000000001", Some("2022CSE001"),
                                 [Member("Meera", "9000000002", Some("2022CSE002"))], Internal,
                                 Some("fp-3"), "", None, Verified, 0)
  const AlphaStored := AlphaReg.(receiptId := "QUI-ABCDEF", createdAt := 300)

  lemma AlphaCanonical()
    ensures UnpaddedOpt(AlphaBody.eventName) && UnpaddedOpt(AlphaBody.teamName) && UnpaddedOpt(AlphaBody.capName)
    ensures IsRoll(AlphaBody.capRoll.value)
  {
    assert Unpadded("Quiz") && Unpadded("Alpha") && Unpadded("Dev");
    assert IsRoll("2022CSE001");
  }

  lemma MeeraCanonical()
    ensures CanonicalMember(Meera)
  {
    assert Unpadded("Meera");
    assert IsRoll("2022CSE002");
  }

  lemma AlphaPrepared()
    ensures Construct(AlphaBody) == AlphaDoc
  {
    AlphaCanonical();
    MeeraCanonical();
    assert forall m :: m in [Meera] ==> m == Meera;
    ConstructCanonical(AlphaBody, [Meera]);
  }

  lemma AlphaNoRepeat()
    ensures SelfCheck(AlphaDoc) == None
  {
    assert AlphaDoc.teamMembers[..0] == [];
    assert MemberPhoneSlots([]) == [];
    assert !PhoneRepeats(AlphaDoc, 0);
    assert MemberRollSlots([], true) == [];
    assert !RollRepeats(AlphaDoc, 0);
    assert FirstRepeat(AlphaDoc, 1) == None;
  }

  lemma AlphaConforms()
    ensures DocConforms(AlphaDoc)
  {
    assert IsMobile("9000000001") && IsMobile("9000000002");
    assert IsRoll("2022CSE001") && IsRoll("2022CSE002");
    assert MemberConforms(Meera, true);
  }

  lemma AlphaValidates()
    ensures SelfCheck(AlphaDoc) == None
    ensures Validate(AlphaDoc) == Some(AlphaReg)
  {
    AlphaNoRepeat();
    AlphaConforms();
    var r := Validate(AlphaDoc).value;
    assert |r.teamMembers| == 1 && r.teamMembers[0] == Member("Meera", "9000000002", Some("2022CSE002"));
    assert r.teamMembers == AlphaReg.teamMembers;
  }

  lemma AlphaValues()
    ensures Phones(AlphaReg) == ["9000000001", "9000000002"]
    ensures Rolls(AlphaReg) == ["2022CSE001", "2022CSE002"]
  {
    var ms := AlphaReg.teamMembers;
    assert ms[..0] == [];
    assert MemberPhones(ms) == ["9000000002"];
    assert MemberRolls(ms) == ["2022CSE002"];
  }

  lemma QuizPrefix()
    ensures ReceiptPrefix("Quiz") == "QUI"
  {
    assert KeepAlphanumeric("Quiz")[..3] == "Qui";
  }

  lemma AlphaReceipt()
    ensures AssignReceipt(true, AlphaReg, [], Draws) == Some(AlphaReg.(receiptId := "QUI-ABCDEF"))
  {
    QuizPrefix();
    HexDigitsOfAB();
    assert Candidate("QUI", Draws[0]) == "QUI-ABCDEF";
  }

  lemma AlphaSaved()
    ensures SaveSpec([], AlphaDoc, 300, Draws) == Success(AlphaStored)
  {
    AlphaValidates();
    AlphaReceipt();
    assert !ConflictFound(true, [], AlphaReg);
    assert IndexViolation([], AlphaStored) == None;
  }

  lemma AlphaPassesGuards()
    ensures Guard(Events, true, [], AlphaBody).None?
  {
  }

  lemma AlphaReachesAdmit()
    ensures RegisterSpec(Events, true, [], Alpha, 300, Draws) == Admit([], AlphaBody, 300, Draws)
  {
    AlphaPassesGuards();
  }

  lemma AlphaAdmitReply()
    ensures Admit([], AlphaBody, 300, Draws)
      == Outcome(Reply(201, Accepted("Registration Successful", "QUI-ABCDEF", "VERIFIED")), Some(AlphaStored))
  {
    AlphaPrepared();
    AlphaSaved();
  }

  /** On an empty store the team is admitted: 201, the generated receipt,
      VERIFIED. */
  lemma AlphaAdmitted()
    ensures RegisterSpec(Events, true, [], Alpha, 300, Draws)
      == Outcome(Reply(201, Accepted("Registration Successful", "QUI-ABCDEF", "VERIFIED")), Some(AlphaStored))
  {
    AlphaReachesAdmit();
    AlphaAdmitReply();
  }

  lemma AlphaConflicts()
    ensures SaveSpec([AlphaStored], AlphaDoc, 400, Draws) == Failure(AlreadyRegistered)
  {
    AlphaValidates();
    AlphaValues();
    assert MatchesConflictQuery(AlphaStored, "Quiz", Phones(AlphaReg), Rolls(AlphaReg));
    assert ConflictFound(true, [AlphaStored], AlphaReg);
  }

  lemma AlphaAgainPassesGuards()
    ensures Guard(Events, true, [AlphaStored], AlphaBody).None?
  {
    assert DeviceCount([AlphaStored], "fp-3") == 1 by {
      assert [AlphaStored][..0] == [];
    }
  }

  lemma AlphaAgainReachesAdmit()
    ensures RegisterSpec(Events, true, [AlphaStored], Alpha, 400, Draws) == Admit([AlphaStored], AlphaBody, 400, Draws)
  {
    AlphaAgainPassesGuards();
  }

  lemma AlphaAgainRefused()
    ensures SaveSpec([AlphaStored], Construct(AlphaBody), 400, Draws) == Failure(AlreadyRegistered)
  {
    AlphaPrepared();
    AlphaConflicts();
  }

  lemma AlphaAgainReply()
    ensures Admit([AlphaStored], AlphaBody, 400, Draws) == Outcome(Reply(400, Refused(ConflictMessage)), None)
  {
    AlphaAgainRefused();
  }

  /** The same team submitted again is stopped by the conflict check, not by
      an index, and answered with 400. */
  lemma AlphaResubmitted()
    ensures RegisterSpec(Events, true, [AlphaStored], Alpha, 400, Draws)
      == Outcome(Reply(400, Refused(ConflictMessage)), None)
  {
    AlphaAgainReachesAdmit();
    AlphaAgainReply();
  }

  /** A member who repeats the captain's phone is named in the 400 reply. */
  lemma RepeatedPhoneNamed()
    ensures SelfCheck(AlphaDoc.(teamMembers := [Meera.(memPhone := Some("9000000001"))]))
      == Some(RepeatedPhone(0, Some("Meera")))
  {
    var d := AlphaDoc.(teamMembers := [Meera.(memPhone := Some("9000000001"))]);
    assert d.teamMembers[..0] == [];
    assert MemberPhoneSlots([]) == [];
    assert PhoneRepeats(d, 0);
  }

  lemma HexDigitsOfAB()
    ensures HexByte(0xAB) == "AB" && HexByte(0xCD) == "CD" && HexByte(0xEF) == "EF"
  {
  }

  /** Two EXTERNAL Chess teams whose captain phones differ only in the first
      two digits. */
  const Falcons := Registration("Chess", "Falcons", "Kiran", "9812345678", None, [], External,
                                Some("fp-4"), "CHE-000002", Some("uploads/receipt-4.png"), Pending, 400)
  const Hawks := Registration("Chess", "Hawks", "Nila", "8812345678", None, [], External,
                              Some("fp-5"), "CHE-000003", Some("uploads/receipt-5.png"), Pending, 500)

  lemma FalconsAndHawksConform()
    ensures Conforms(Falcons) && Conforms(Hawks)
  {
    assert IsMobile("9812345678") && IsMobile("8812345678");
  }

  lemma FalconsAndHawksShareId()
    ensures ContactId("Chess", Falcons) == ContactId("Chess", Hawks)
  {
    FalconsAndHawksConform();
    ContactIdsOfStored("Chess", Falcons, Hawks);
    assert Falcons.capPhone[2..] == Hawks.capPhone[2..];
  }

  /** Both may be stored side by side, yet their contact cards carry the
      same FN and N, so the two captains cannot be told apart by name. */
  lemma ExternalContactIdsCollide()
    ensures Conforms(Falcons) && Conforms(Hawks) && Falcons.capPhone != Hawks.capPhone
    ensures ContactId("Chess", Falcons) == ContactId("Chess", Hawks)
  {
    FalconsAndHawksConform();
    FalconsAndHawksShareId();
  }

  // ---------------------------------------------------------------------
  // Coordinator export

  /** Two names the store cannot tell apart but the lock table can, as
      `Download.PaddedNameBypassesLock` needs. */
  lemma PaddedNameTrims()
    ensures Trim("Chess ") == Trim("Chess") && "Chess " != "Chess"
  {
    TrimUnpadded("Chess");
    assert TrimStart("Chess ") == "Chess ";
    assert "Chess "[..5] == "Chess";
    assert |"Chess "| != |"Chess"|;
  }
}
