/** The three document hooks of models/registerModel.js and the save pipeline
    they belong to: the in-submission duplicate check (`pre("validate")`), the
    conflict check against the event's existing registrations (first
    `pre("save")`) and receipt-ID generation (second `pre("save")`). */
module RegisterHooks {
  import opened Wrappers
  import opened Text
  import opened RegisterModel

  // ---------------------------------------------------------------------
  // pre("validate"): repeated phones and rolls inside one submission

  predicate IsInternalDoc(d: Doc) { d.participantType == Some("INTERNAL") }

  /** The captain's phone joins the phone set only when it is truthy. */
  function CaptainPhoneSlot(d: Doc): seq<Option<string>> {
    if Truthy(d.capPhone) then [d.capPhone] else []
  }

  /** Member phones join the set unconditionally, missing ones included. */
  function MemberPhoneSlots(ms: seq<MemberInput>): (r: seq<Option<string>>)
    ensures |r| == |ms|
  {
    if ms == [] then [] else MemberPhoneSlots(ms[..|ms| - 1]) + [ms[|ms| - 1].memPhone]
  }

  function PhoneSlots(d: Doc): seq<Option<string>> {
    CaptainPhoneSlot(d) + MemberPhoneSlots(d.teamMembers)
  }

  /** Rolls are collected only for INTERNAL teams, and only truthy ones. */
  function CaptainRollSlot(d: Doc): seq<string> {
    if IsInternalDoc(d) && Truthy(d.capRoll) then [d.capRoll.value] else []
  }

  function MemberRollSlots(ms: seq<MemberInput>, internal: bool): seq<string> {
    if ms == [] then []
    else
      var last := ms[|ms| - 1];
      MemberRollSlots(ms[..|ms| - 1], internal)
        + (if internal && Truthy(last.memRoll) then [last.memRoll.value] else [])
  }

  function RollSlots(d: Doc): seq<string> {
    CaptainRollSlot(d) + MemberRollSlots(d.teamMembers, IsInternalDoc(d))
  }

  /** Member `k`'s phone already occurs among the captain and the members before it. */
  predicate PhoneRepeats(d: Doc, k: nat)
    requires k < |d.teamMembers|
  {
    d.teamMembers[k].memPhone in CaptainPhoneSlot(d) + MemberPhoneSlots(d.teamMembers[..k])
  }

  /** Member `k`'s roll already occurs among the captain and the members before it. */
  predicate RollRepeats(d: Doc, k: nat)
    requires k < |d.teamMembers|
  {
    var m := d.teamMembers[k];
    && IsInternalDoc(d) && Truthy(m.memRoll)
    && m.memRoll.value in CaptainRollSlot(d) + MemberRollSlots(d.teamMembers[..k], true)
  }

  /** The error names the member, by position and by (trimmed) name. There is
      no captain variant: the captain's tests run on empty sets. */
  datatype SelfCheckError =
    | RepeatedPhone(member: nat, memName: Option<string>)
    | RepeatedRoll(member: nat, memName: Option<string>)

  /** The first member from `from` on whose phone or roll repeats; the phone
      is checked before the roll. */
  function FirstRepeat(d: Doc, from: nat): Option<SelfCheckError>
    decreases |d.teamMembers| - from
  {
    if from >= |d.teamMembers| then None
    else if PhoneRepeats(d, from) then Some(RepeatedPhone(from, d.teamMembers[from].memName))
    else if RollRepeats(d, from) then Some(RepeatedRoll(from, d.teamMembers[from].memName))
    else FirstRepeat(d, from + 1)
  }

  /** The repeat found is a member at or after `from` whose phone (for
      `RepeatedPhone`) or roll repeats, and no member between `from` and it
      repeats anything; none is found exactly when no member from `from` on
      repeats. */
  lemma {:induction false} FirstRepeatMeans(d: Doc, from: nat)
    ensures var r := FirstRepeat(d, from);
      && (r.Some? ==>
        && from <= r.value.member < |d.teamMembers|
        && r.value.memName == d.teamMembers[r.value.member].memName
        && (r.value.RepeatedPhone? <==> PhoneRepeats(d, r.value.member))
        && (r.value.RepeatedRoll? ==> RollRepeats(d, r.value.member))
        && forall j :: from <= j < r.value.member ==> !PhoneRepeats(d, j) && !RollRepeats(d, j))
      && (r.None? <==> forall j :: from <= j < |d.teamMembers| ==> !PhoneRepeats(d, j) && !RollRepeats(d, j))
    decreases |d.teamMembers| - from
  {
    if from < |d.teamMembers| && !PhoneRepeats(d, from) && !RollRepeats(d, from) {
      FirstRepeatMeans(d, from + 1);
    }
  }

  /** The outcome of the `pre("validate")` hook; `None` lets validation go on. */
  function SelfCheck(d: Doc): Option<SelfCheckError> {
    FirstRepeat(d, 0)
  }

  /** The values a sequence holds. */
  function Elems<T>(s: seq<T>): set<T> {
    set x | x in s
  }

  /** The phone slots of the captain and members `0..i`. */
  function PhoneSlotsUpTo(d: Doc, i: nat): seq<Option<string>>
    requires i <= |d.teamMembers|
  {
    CaptainPhoneSlot(d) + MemberPhoneSlots(d.teamMembers[..i])
  }

  /** The roll slots of the captain and members `0..i`. */
  function RollSlotsUpTo(d: Doc, i: nat): seq<string>
    requires i <= |d.teamMembers|
  {
    CaptainRollSlot(d) + MemberRollSlots(d.teamMembers[..i], IsInternalDoc(d))
  }

  /** The roll member `i` adds, if it is counted. */
  function CountedRoll(d: Doc, i: nat): seq<string>
    requires i < |d.teamMembers|
  {
    var m := d.teamMembers[i];
    if IsInternalDoc(d) && Truthy(m.memRoll) then [m.memRoll.value] else []
  }

  /** Member `i` repeats exactly when its phone or counted roll is among the
      slots before it, which then grow by it. */
  lemma SlotStep(d: Doc, i: nat)
    requires i < |d.teamMembers|
    ensures var m := d.teamMembers[i];
      && (PhoneRepeats(d, i) <==> m.memPhone in PhoneSlotsUpTo(d, i))
      && (RollRepeats(d, i) <==> IsInternalDoc(d) && Truthy(m.memRoll) && m.memRoll.value in RollSlotsUpTo(d, i))
      && PhoneSlotsUpTo(d, i + 1) == PhoneSlotsUpTo(d, i) + [m.memPhone]
      && RollSlotsUpTo(d, i + 1) == RollSlotsUpTo(d, i) + CountedRoll(d, i)
  {
    var ms := d.teamMembers;
    assert ms[..i + 1][..i] == ms[..i];
    assert ms[..i + 1][i] == ms[i];
    if IsInternalDoc(d) {
      assert MemberRollSlots(ms[..i], IsInternalDoc(d)) == MemberRollSlots(ms[..i], true);
    }
  }

  /** The phones in the set once the captain and members `0..i` are in. */
  function PhonesUpTo(d: Doc, i: nat): set<Option<string>>
    requires i <= |d.teamMembers|
  {
    Elems(PhoneSlotsUpTo(d, i))
  }

  /** The rolls in the set once the captain and members `0..i` are in. */
  function RollsUpTo(d: Doc, i: nat): set<string>
    requires i <= |d.teamMembers|
  {
    Elems(RollSlotsUpTo(d, i))
  }

  /** One step of the member pass: member `i` repeats exactly when its phone
      or counted roll is already in the sets, which then grow by it, and the
      first repeat from `i` is `i` or lies later. */
  lemma MemberStep(d: Doc, i: nat)
    requires i < |d.teamMembers|
    ensures var m := d.teamMembers[i];
      && (PhoneRepeats(d, i) <==> m.memPhone in PhonesUpTo(d, i))
      && (RollRepeats(d, i) <==> IsInternalDoc(d) && Truthy(m.memRoll) && m.memRoll.value in RollsUpTo(d, i))
      && PhonesUpTo(d, i + 1) == PhonesUpTo(d, i) + {m.memPhone}
      && RollsUpTo(d, i + 1) == RollsUpTo(d, i) + (if IsInternalDoc(d) && Truthy(m.memRoll) then {m.memRoll.value} else {})
    ensures FirstRepeat(d, i) == if PhoneRepeats(d, i) then Some(RepeatedPhone(i, d.teamMembers[i].memName))
      else if RollRepeats(d, i) then Some(RepeatedRoll(i, d.teamMembers[i].memName))
      else FirstRepeat(d, i + 1)
  {
    SlotStep(d, i);
  }

  /** The hook as the source runs it: two sets filled in one pass, returning
      at the first repeat. */
  method CheckSubmission(d: Doc) returns (e: Option<SelfCheckError>)
    ensures e == SelfCheck(d)
  {
    var phoneSet: set<Option<string>> := {};
    var rollSet: set<string> := {};
    var internal := d.participantType == Some("INTERNAL");
    assert internal == IsInternalDoc(d);
    // Both captain tests are against still-empty sets and cannot fire.
    if Truthy(d.capPhone) {
      phoneSet := phoneSet + {d.capPhone};
    }
    if internal && Truthy(d.capRoll) {
      rollSet := rollSet + {d.capRoll.value};
    }
    var ms := d.teamMembers;
    assert ms[..0] == [];
    var i := 0;
    while i < |ms|
      invariant 0 <= i <= |ms|
      invariant phoneSet == PhonesUpTo(d, i)
      invariant rollSet == RollsUpTo(d, i)
      invariant SelfCheck(d) == FirstRepeat(d, i)
    {
      MemberStep(d, i);
      var m := ms[i];
      if m.memPhone in phoneSet {
        return Some(RepeatedPhone(i, m.memName));
      }
      phoneSet := phoneSet + {m.memPhone};
      if internal && Truthy(m.memRoll) {
        if m.memRoll.value in rollSet {
          return Some(RepeatedRoll(i, m.memName));
        }
        rollSet := rollSet + {m.memRoll.value};
      }
      assert !PhoneRepeats(d, i) && !RollRepeats(d, i);
      i := i + 1;
    }
    return None;
  }

  lemma {:induction false} NoRepeatUpTo(d: Doc, k: nat)
    requires k <= |d.teamMembers|
    ensures (forall j :: 0 <= j < k ==> !PhoneRepeats(d, j) && !RollRepeats(d, j))
      <==> Distinct(PhoneSlotsUpTo(d, k)) && Distinct(RollSlotsUpTo(d, k))
  {
    if k == 0 {
      assert d.teamMembers[..0] == [];
    } else {
      NoRepeatUpTo(d, k - 1);
      SlotStep(d, k - 1);
      var m := d.teamMembers[k - 1];
      DistinctSnoc(PhoneSlotsUpTo(d, k - 1), m.memPhone);
      if IsInternalDoc(d) && Truthy(m.memRoll) {
        DistinctSnoc(RollSlotsUpTo(d, k - 1), m.memRoll.value);
      } else {
        assert RollSlotsUpTo(d, k) == RollSlotsUpTo(d, k - 1);
      }
    }
  }

  /** The hook passes exactly when the captain's (truthy) phone and all member
      phones are pairwise distinct and, for an INTERNAL team, so are all
      present rolls. An EXTERNAL team's rolls are never compared. */
  lemma SelfCheckPassesIffDistinct(d: Doc)
    ensures SelfCheck(d).None? <==> Distinct(PhoneSlots(d)) && Distinct(RollSlots(d))
    ensures !IsInternalDoc(d) ==> (SelfCheck(d).None? <==> Distinct(PhoneSlots(d)))
  {
    FirstRepeatMeans(d, 0);
    NoRepeatUpTo(d, |d.teamMembers|);
    assert d.teamMembers[..|d.teamMembers|] == d.teamMembers;
    if !IsInternalDoc(d) {
      NoInternalRolls(d.teamMembers);
    }
  }

  lemma {:induction false} NoInternalRolls(ms: seq<MemberInput>)
    ensures MemberRollSlots(ms, false) == []
  {
    if ms != [] {
      NoInternalRolls(ms[..|ms| - 1]);
    }
  }

  // ---------------------------------------------------------------------
  // Relating the document's slots to the validated registration

  lemma {:induction false} MemberSlotsOfValidated(ms: seq<MemberInput>, rs: seq<Member>)
    requires |ms| == |rs|
    requires forall i :: 0 <= i < |ms| ==>
      ms[i].memPhone == Some(rs[i].memPhone) && ms[i].memRoll == rs[i].memRoll
    ensures MemberPhoneSlots(ms) == seq(|rs|, i requires 0 <= i < |rs| => Some(rs[i].memPhone))
    ensures MemberRollSlots(ms, true) == MemberRolls(rs)
  {
    if ms != [] {
      MemberSlotsOfValidated(ms[..|ms| - 1], rs[..|rs| - 1]);
    }
  }

  /** A submission that passed the hook and validation has pairwise distinct
      phones, and an INTERNAL one pairwise distinct rolls. */
  lemma ValidatedDistinct(d: Doc)
    requires SelfCheck(d).None? && Validate(d).Some?
    ensures Distinct(Phones(Validate(d).value))
    ensures Distinct(Rolls(Validate(d).value))
  {
    var r := Validate(d).value;
    SelfCheckPassesIffDistinct(d);
    MemberSlotsOfValidated(d.teamMembers, r.teamMembers);
    var ps := Phones(r);
    assert Truthy(d.capPhone);
    var slots := PhoneSlots(d);
    assert |slots| == |ps|;
    assert forall i :: 0 <= i < |ps| ==> slots[i] == Some(ps[i]);
    forall i, j | 0 <= i < j < |ps| ensures ps[i] != ps[j] {
      assert slots[i] != slots[j];
    }
    if r.participantType == Internal {
      assert RollSlots(d) == Rolls(r);
    }
  }

  // ---------------------------------------------------------------------
  // First pre("save"): conflicts with the event's existing registrations

  /** One more member appends its phone, and its roll when it has one. */
  lemma CollectStep(ms: seq<Member>, i: nat)
    requires i < |ms|
    ensures MemberPhones(ms[..i + 1]) == MemberPhones(ms[..i]) + [ms[i].memPhone]
    ensures MemberRolls(ms[..i + 1]) == MemberRolls(ms[..i]) + (if Truthy(ms[i].memRoll) then [ms[i].memRoll.value] else [])
  {
    assert ms[..i + 1][..i] == ms[..i];
  }

  /** The source builds `phonesToCheck` and `rollsToCheck` by pushing in
      `forEach` loops; rolls are gathered only for an INTERNAL team. */
  method CollectCheckValues(r: Registration) returns (phones: seq<string>, rolls: seq<string>)
    ensures phones == Phones(r) && rolls == Rolls(r)
  {
    phones := CollectPhones(r);
    rolls := CollectRolls(r);
  }

  /** The `phonesToCheck` loop: the captain's phone, then each member's. */
  method CollectPhones(r: Registration) returns (phones: seq<string>)
    ensures phones == Phones(r)
  {
    var ms := r.teamMembers;
    phones := [r.capPhone];
    var i := 0;
    while i < |ms|
      invariant 0 <= i <= |ms|
      invariant phones == [r.capPhone] + MemberPhones(ms[..i])
    {
      CollectStep(ms, i);
      phones := phones + [ms[i].memPhone];
      i := i + 1;
    }
    assert ms[..|ms|] == ms;
  }

  /** The `rollsToCheck` loop: for an INTERNAL team the captain's roll, then
      each member's, skipping empty ones; nothing for an EXTERNAL team. */
  method CollectRolls(r: Registration) returns (rolls: seq<string>)
    ensures rolls == Rolls(r)
  {
    var ms := r.teamMembers;
    rolls := [];
    if r.participantType == Internal {
      if Truthy(r.capRoll) {
        rolls := rolls + [r.capRoll.value];
      }
      var j := 0;
      while j < |ms|
        invariant 0 <= j <= |ms|
        invariant rolls == (if Truthy(r.capRoll) then [r.capRoll.value] else []) + MemberRolls(ms[..j])
      {
        CollectStep(ms, j);
        if Truthy(ms[j].memRoll) {
          rolls := rolls + [ms[j].memRoll.value];
        }
        j := j + 1;
      }
      assert ms[..|ms|] == ms;
    }
  }

  /** The store query `findOne({eventName, $or: [...]})`: an existing document
      of the same event whose captain or some member has one of the phones,
      or, when there are rolls to check, one of the rolls. */
  predicate MatchesConflictQuery(x: Registration, eventName: string, phones: seq<string>, rolls: seq<string>) {
    && x.eventName == eventName
    && (|| x.capPhone in phones
        || (exists m :: m in x.teamMembers && m.memPhone in phones)
        || (|rolls| > 0 && (|| (x.capRoll.Some? && x.capRoll.value in rolls)
                            || (exists m :: m in x.teamMembers && m.memRoll.Some? && m.memRoll.value in rolls))))
  }

  /** Whether the hook rejects the document; it does nothing for a document
      that is not new. */
  predicate ConflictFound(isNew: bool, regs: seq<Registration>, r: Registration) {
    isNew && exists x :: x in regs && MatchesConflictQuery(x, r.eventName, Phones(r), Rolls(r))
  }

  /** A new document is rejected exactly when an existing registration of the
      same event shares a phone with it or, for an INTERNAL document, holds one
      of its rolls. Registrations of other events never conflict. */
  lemma ConflictIff(regs: seq<Registration>, r: Registration)
    ensures ConflictFound(true, regs, r) <==>
      exists x :: x in regs && x.eventName == r.eventName
        && (Shares(Phones(x), Phones(r)) || Shares(AllRolls(x), Rolls(r)))
  {
    forall x | x in regs
      ensures MatchesConflictQuery(x, r.eventName, Phones(r), Rolls(r)) <==>
        x.eventName == r.eventName && (Shares(Phones(x), Phones(r)) || Shares(AllRolls(x), Rolls(r)))
    {
      forall p ensures p in Phones(x) <==> p == x.capPhone || exists m :: m in x.teamMembers && m.memPhone == p {
        MemberPhonesContain(x.teamMembers, p);
      }
      if Shares(AllRolls(x), Rolls(r)) {
        var q :| q in AllRolls(x) && q in Rolls(r);
        assert |Rolls(r)| > 0;
        if !(Truthy(x.capRoll) && q == x.capRoll.value) {
          assert q in MemberRolls(x.teamMembers);
        }
      }
      if |Rolls(r)| > 0 && x.capRoll.Some? && x.capRoll.value in Rolls(r) {
        assert x.capRoll.value in AllRolls(r);
        assert x.capRoll.value != "";
        assert x.capRoll.value in AllRolls(x);
      }
      if |Rolls(r)| > 0 && exists m :: m in x.teamMembers && m.memRoll.Some? && m.memRoll.value in Rolls(r) {
        var m :| m in x.teamMembers && m.memRoll.Some? && m.memRoll.value in Rolls(r);
        assert m.memRoll.value in AllRolls(r);
        assert m.memRoll.value != "";
        assert m.memRoll.value in MemberRolls(x.teamMembers);
        assert m.memRoll.value in AllRolls(x);
      }
    }
  }

  lemma RollsAreTruthy(r: Registration, q: string)
    requires q in AllRolls(r)
    ensures q != ""
  {
  }

  // ---------------------------------------------------------------------
  // Second pre("save"): receipt IDs

  type byte = x: int | 0 <= x < 256

  /** The three bytes of one `crypto.randomBytes(3)` call. */
  datatype Draw = Draw(b0: byte, b1: byte, b2: byte)

  predicate IsPrefixChar(c: char) { IsUpper(c) || IsDigit(c) }
  predicate IsUpperHex(c: char) { IsDigit(c) || 'A' <= c <= 'F' }

  /** The shape of a generated receipt: three capitals or digits, a dash,
      six upper-case hexadecimal digits. */
  predicate IsReceiptId(id: string) {
    && |id| == 10
    && (forall i :: 0 <= i < 3 ==> IsPrefixChar(id[i]))
    && id[3] == '-'
    && (forall i :: 4 <= i < 10 ==> IsUpperHex(id[i]))
  }

  /** The first three alphanumeric characters of the event name, upper-cased
      and padded with 'X' to length three. */
  function ReceiptPrefix(eventName: string): (p: string)
    ensures |p| == 3 && forall i :: 0 <= i < 3 ==> IsPrefixChar(p[i])
    ensures var clean := KeepAlphanumeric(eventName);
      var n := if |clean| < 3 then |clean| else 3;
      && (forall i :: 0 <= i < n ==> p[i] == UpperChar(clean[i]))
      && (forall i :: n <= i < 3 ==> p[i] == 'X')
  {
    var clean := KeepAlphanumeric(eventName);
    var head := ToUpper(Take(clean, 3));
    assert forall i :: 0 <= i < |head| ==> IsAlphanumeric(clean[i]) && head[i] == UpperChar(clean[i]);
    PadEnd(head, 3, 'X')
  }

  function HexDigit(n: nat): (c: char)
    requires n < 16
    ensures IsUpperHex(c)
  {
    if n < 10 then DigitChar(n) else ('A' as int + n - 10) as char
  }

  /** `toString('hex').toUpperCase()` of one byte. */
  function HexByte(b: byte): string {
    [HexDigit(b / 16), HexDigit(b % 16)]
  }

  function Candidate(prefix: string, draw: Draw): string {
    prefix + "-" + HexByte(draw.b0) + HexByte(draw.b1) + HexByte(draw.b2)
  }

  lemma CandidateShape(eventName: string, draw: Draw)
    ensures IsReceiptId(Candidate(ReceiptPrefix(eventName), draw))
    ensures Candidate(ReceiptPrefix(eventName), draw)[..3] == ReceiptPrefix(eventName)
  {
  }

  /** The position of the first draw whose candidate no stored registration
      holds, or the number of draws when every candidate is taken. */
  function FirstFree(prefix: string, regs: seq<Registration>, draws: seq<Draw>): (k: nat)
    ensures k <= |draws|
    ensures forall j :: 0 <= j < k ==> ReceiptHeld(regs, Candidate(prefix, draws[j]))
    ensures k < |draws| ==> !ReceiptHeld(regs, Candidate(prefix, draws[k]))
  {
    if draws == [] then 0
    else if !ReceiptHeld(regs, Candidate(prefix, draws[0])) then 0
    else
      var k := FirstFree(prefix, regs, draws[1..]);
      assert forall j :: 1 <= j < |draws| ==> draws[j] == draws[1..][j - 1];
      k + 1
  }

  /** `FirstFree` is the one position whose candidate is free while every
      earlier one is taken. */
  lemma FirstFreeIs(prefix: string, regs: seq<Registration>, draws: seq<Draw>, i: nat)
    requires i <= |draws|
    requires forall j :: 0 <= j < i ==> ReceiptHeld(regs, Candidate(prefix, draws[j]))
    requires i < |draws| ==> !ReceiptHeld(regs, Candidate(prefix, draws[i]))
    ensures FirstFree(prefix, regs, draws) == i
  {
  }

  /** The retry loop over the supplied draws: the first candidate that no
      stored registration holds, or `None` once the draws run out. */
  function FreshReceipt(prefix: string, regs: seq<Registration>, draws: seq<Draw>): (r: Option<string>)
    ensures r.Some? ==> !ReceiptHeld(regs, r.value)
    ensures r.None? <==> forall k :: 0 <= k < |draws| ==> ReceiptHeld(regs, Candidate(prefix, draws[k]))
  {
    var k := FirstFree(prefix, regs, draws);
    if k < |draws| then Some(Candidate(prefix, draws[k])) else None
  }

  /** The `while (!isUnique)` loop, one `findOne({receiptId})` per draw. */
  method GenerateReceipt(prefix: string, regs: seq<Registration>, draws: seq<Draw>) returns (id: Option<string>)
    ensures id == FreshReceipt(prefix, regs, draws)
  {
    var i := 0;
    while i < |draws|
      invariant 0 <= i <= |draws|
      invariant forall j :: 0 <= j < i ==> ReceiptHeld(regs, Candidate(prefix, draws[j]))
    {
      var newId := Candidate(prefix, draws[i]);
      var isUnique := !ReceiptHeld(regs, newId);
      if isUnique {
        FirstFreeIs(prefix, regs, draws, i);
        return Some(newId);
      }
      i := i + 1;
    }
    FirstFreeIs(prefix, regs, draws, i);
    return None;
  }

  /** The hook: only a new document without a receipt gets one; an existing
      receipt is never overwritten. `None` means the draws ran out. */
  function AssignReceipt(isNew: bool, r: Registration, regs: seq<Registration>, draws: seq<Draw>): Option<Registration> {
    if !isNew || r.receiptId != "" then Some(r)
    else
      match FreshReceipt(ReceiptPrefix(r.eventName), regs, draws)
      case None => None
      case Some(id) => Some(r.(receiptId := id))
  }

  /** Conflict checking and receipt generation leave a document that is not
      new alone, and a receipt that is already set is kept. */
  lemma HooksSkipExisting(r: Registration, regs: seq<Registration>, draws: seq<Draw>)
    ensures !ConflictFound(false, regs, r)
    ensures AssignReceipt(false, r, regs, draws) == Some(r)
    ensures r.receiptId != "" ==> AssignReceipt(true, r, regs, draws) == Some(r)
  {
  }

  /** A generated receipt has the event's prefix, the receipt shape, and is
      held by no stored registration. */
  lemma AssignedReceiptIsFresh(r: Registration, regs: seq<Registration>, draws: seq<Draw>)
    requires r.receiptId == "" && AssignReceipt(true, r, regs, draws).Some?
    ensures var id := AssignReceipt(true, r, regs, draws).value.receiptId;
      IsReceiptId(id) && id[..3] == ReceiptPrefix(r.eventName) && !ReceiptHeld(regs, id)
  {
    var k := FirstFree(ReceiptPrefix(r.eventName), regs, draws);
    CandidateShape(r.eventName, draws[k]);
  }

  // ---------------------------------------------------------------------
  // The save pipeline

  datatype SaveError =
    | SubmissionRepeat(repeat: SelfCheckError)
    | ValidationFailed
    | AlreadyRegistered
    | ReceiptsExhausted
    | DuplicateKey(index: IndexKey)

  /** `register.save()` on a new document: the `pre("validate")` hook, the
      schema validators, the two `pre("save")` hooks, the timestamp, and the
      insert under the unique indexes. */
  function SaveSpec(regs: seq<Registration>, d: Doc, now: int, draws: seq<Draw>): Result<Registration, SaveError> {
    match SelfCheck(d)
    case Some(e) => Failure(SubmissionRepeat(e))
    case None =>
      match Validate(d)
      case None => Failure(ValidationFailed)
      case Some(r) =>
        if ConflictFound(true, regs, r) then Failure(AlreadyRegistered)
        else
          match AssignReceipt(true, r, regs, draws)
          case None => Failure(ReceiptsExhausted)
          case Some(r') =>
            var stamped := r'.(createdAt := now);
            match IndexViolation(regs, stamped)
            case Some(k) => Failure(DuplicateKey(k))
            case None => Success(stamped)
  }

  /** A successful save stores the validated document itself, changed only
      in its receipt (when it had none) and its timestamp. */
  lemma SaveStoresValidated(regs: seq<Registration>, d: Doc, now: int, draws: seq<Draw>)
    requires SaveSpec(regs, d, now, draws).Success?
    ensures SelfCheck(d).None? && Validate(d).Some?
    ensures var r := SaveSpec(regs, d, now, draws).value;
      && r == Validate(d).value.(receiptId := r.receiptId, createdAt := now)
      && (Truthy(d.receiptId) ==> r.receiptId == d.receiptId.value)
  {
  }

  /** What a successful save guarantees about the stored registration: it
      conforms to the schema, its phones (and an INTERNAL team's rolls) are
      pairwise distinct, it shares no phone with any registration of the same
      event, an INTERNAL one holds no roll any of them holds, and its receipt
      is held by no other registration (a generated one has the event's
      prefix and the receipt shape). */
  lemma SaveAdmitsOnlyFresh(regs: seq<Registration>, d: Doc, now: int, draws: seq<Draw>)
    requires SaveSpec(regs, d, now, draws).Success?
    ensures var r := SaveSpec(regs, d, now, draws).value;
      && Conforms(r)
      && r.createdAt == now
      && Distinct(Phones(r)) && Distinct(Rolls(r))
      && (forall x :: x in regs && x.eventName == r.eventName ==>
            !Shares(Phones(x), Phones(r)) && !Shares(AllRolls(x), Rolls(r)))
      && !ReceiptHeld(regs, r.receiptId)
      && IndexViolation(regs, r).None?
      && (!Truthy(d.receiptId) ==> IsReceiptId(r.receiptId) && r.receiptId[..3] == ReceiptPrefix(r.eventName))
  {
    var v := Validate(d).value;
    ValidatedDistinct(d);
    ConflictIff(regs, v);
    var r := SaveSpec(regs, d, now, draws).value;
    assert IndexViolation(regs, r).None?;
    assert forall x :: x in regs ==> !Collides(ReceiptIdIndex, x, r);
    if !Truthy(d.receiptId) {
      AssignedReceiptIsFresh(v, regs, draws);
    }
  }

  /** Within one event no phone occurs twice across all captain and member slots. */
  predicate PhonesUnique(regs: seq<Registration>) {
    && (forall i :: 0 <= i < |regs| ==> Distinct(Phones(regs[i])))
    && (forall i, j :: 0 <= i < |regs| && 0 <= j < |regs| && i != j && regs[i].eventName == regs[j].eventName
          ==> !Shares(Phones(regs[i]), Phones(regs[j])))
  }

  /** Within one event no roll occurs twice across the INTERNAL registrations. */
  predicate InternalRollsUnique(regs: seq<Registration>) {
    && (forall i :: 0 <= i < |regs| ==> Distinct(Rolls(regs[i])))
    && (forall i, j :: 0 <= i < |regs| && 0 <= j < |regs| && i != j && regs[i].eventName == regs[j].eventName
          ==> !Shares(Rolls(regs[i]), Rolls(regs[j])))
  }

  predicate Deduplicated(regs: seq<Registration>) {
    PhonesUnique(regs) && InternalRollsUnique(regs)
  }

  /** No registration of `r`'s event shares a phone with it, nor a roll
      with the rolls it was checked against. */
  predicate FreshAgainst(regs: seq<Registration>, r: Registration) {
    forall x :: x in regs && x.eventName == r.eventName ==>
      !Shares(Phones(x), Phones(r)) && !Shares(AllRolls(x), Rolls(r))
  }

  lemma AppendKeepsPhonesUnique(regs: seq<Registration>, r: Registration)
    requires PhonesUnique(regs) && Distinct(Phones(r)) && FreshAgainst(regs, r)
    ensures PhonesUnique(regs + [r])
  {
    var t := regs + [r];
    forall i, j | 0 <= i < |t| && 0 <= j < |t| && i != j && t[i].eventName == t[j].eventName
      ensures !Shares(Phones(t[i]), Phones(t[j]))
    {
      if j == |regs| {
        assert t[i] == regs[i] && regs[i] in regs;
      } else if i == |regs| {
        assert t[j] == regs[j] && regs[j] in regs;
      } else {
        assert t[i] == regs[i] && t[j] == regs[j];
      }
    }
  }

  lemma AppendKeepsRollsUnique(regs: seq<Registration>, r: Registration)
    requires InternalRollsUnique(regs) && Distinct(Rolls(r)) && FreshAgainst(regs, r)
    ensures InternalRollsUnique(regs + [r])
  {
    var t := regs + [r];
    forall i, j | 0 <= i < |t| && 0 <= j < |t| && i != j && t[i].eventName == t[j].eventName
      ensures !Shares(Rolls(t[i]), Rolls(t[j]))
    {
      if j == |regs| {
        assert t[i] == regs[i] && regs[i] in regs;
        if t[i].participantType == Internal {
          assert Rolls(t[i]) == AllRolls(t[i]);
        }
      } else if i == |regs| {
        assert t[j] == regs[j] && regs[j] in regs;
        if t[j].participantType == Internal {
          assert Rolls(t[j]) == AllRolls(t[j]);
        }
      } else {
        assert t[i] == regs[i] && t[j] == regs[j];
      }
    }
  }

  /** Saving one registration at a time keeps every event's phones unique,
      and the rolls of its INTERNAL teams unique. */
  lemma SavePreservesDedup(regs: seq<Registration>, d: Doc, now: int, draws: seq<Draw>)
    requires Deduplicated(regs) && SaveSpec(regs, d, now, draws).Success?
    ensures Deduplicated(regs + [SaveSpec(regs, d, now, draws).value])
  {
    var r := SaveSpec(regs, d, now, draws).value;
    SaveAdmitsOnlyFresh(regs, d, now, draws);
    AppendKeepsPhonesUnique(regs, r);
    AppendKeepsRollsUnique(regs, r);
  }
}
