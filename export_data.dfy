/** The data middleware/download.js exports for one event, as plain values
    before it reaches the spreadsheet library: vCard text, contact IDs, the
    sheet's columns and rows, and the contact cards. */
module ExportData {
  import opened Wrappers
  import opened Text
  import opened RegisterModel
  import opened DocumentStore

  // ---------------------------------------------------------------------
  // vCards

  /** A line of text with its line feed. */
  function Line(s: string): string { s + "\n" }

  /** `generateVCard`: the file name goes into FN and N, the phone into TEL;
      the `name` argument is not used. */
  function GenerateVCard(name: string, phone: string, filename: string): string {
    Line("BEGIN:VCARD") + (Line("VERSION:3.0") + (Line("FN:" + filename) + (Line("N:;" + filename + ";;;")
      + (Line("TEL;TYPE=CELL:" + phone) + Line("END:VCARD")))))
  }

  function FirstIndexOf(s: string, c: char): (i: nat)
    requires c in s
    ensures i < |s| && s[i] == c && c !in s[..i]
  {
    if s[0] == c then 0
    else
      assert c in s[1..];
      var j := FirstIndexOf(s[1..], c);
      assert s[..j + 1] == [s[0]] + s[1..][..j];
      j + 1
  }

  /** The text split at every line feed. */
  function Lines(s: string): seq<string>
    decreases |s|
  {
    if '\n' !in s then [s]
    else
      var i := FirstIndexOf(s, '\n');
      [s[..i]] + Lines(s[i + 1..])
  }

  lemma LinesCons(a: string, b: string)
    requires '\n' !in a
    ensures Lines(Line(a) + b) == [a] + Lines(b)
  {
    var s := Line(a) + b;
    assert s[|a|] == '\n';
    var i := FirstIndexOf(s, '\n');
    assert s[..i] == a;
    assert s[i + 1..] == b;
  }

  /** Lines, each followed by its line feed. */
  function Join(ls: seq<string>): string {
    if ls == [] then "" else Line(ls[0]) + Join(ls[1..])
  }

  /** Splitting joined lines gives them back, plus the empty text after the
      last line feed. */
  lemma {:induction false} LinesOfJoin(ls: seq<string>)
    requires forall l :: l in ls ==> '\n' !in l
    ensures Lines(Join(ls)) == ls + [""]
  {
    if ls != [] {
      LinesOfJoin(ls[1..]);
      LinesCons(ls[0], Join(ls[1..]));
    }
  }

  /** The six lines of a card. */
  function VCardLines(phone: string, filename: string): seq<string> {
    ["BEGIN:VCARD", "VERSION:3.0", "FN:" + filename, "N:;" + filename + ";;;", "TEL;TYPE=CELL:" + phone, "END:VCARD"]
  }

  /** A card is its six lines, each ended by a line feed, whatever the name is. */
  lemma VCardShape(name: string, phone: string, filename: string)
    ensures GenerateVCard(name, phone, filename) == Join(VCardLines(phone, filename))
    ensures GenerateVCard(name, phone, filename) == GenerateVCard("", phone, filename)
  {
    var ls := VCardLines(phone, filename);
    assert ls[5..][1..] == [];
    assert Join(ls[5..]) == Line(ls[5]) + "" == Line("END:VCARD");
    assert ls[4..][1..] == ls[5..];
    assert Join(ls[4..]) == Line(ls[4]) + Join(ls[5..]);
    assert ls[3..][1..] == ls[4..];
    assert Join(ls[3..]) == Line(ls[3]) + Join(ls[4..]);
    assert ls[2..][1..] == ls[3..];
    assert Join(ls[2..]) == Line(ls[2]) + Join(ls[3..]);
    assert ls[1..][1..] == ls[2..];
    assert Join(ls[1..]) == Line(ls[1]) + Join(ls[2..]);
    assert Join(ls) == Line(ls[0]) + Join(ls[1..]);
  }

  /** Splitting a card at its line feeds gives its six lines back when
      neither the phone nor the file name holds a line feed. */
  lemma VCardLinesRecovered(phone: string, filename: string)
    requires '\n' !in phone && '\n' !in filename
    ensures Lines(Join(VCardLines(phone, filename))) == VCardLines(phone, filename) + [""]
  {
    assert forall l :: l in VCardLines(phone, filename) ==> '\n' !in l;
    LinesOfJoin(VCardLines(phone, filename));
  }

  // ---------------------------------------------------------------------
  // Contact IDs

  /** The first two characters of the event name, lower-cased. */
  function EventPrefix(eventName: string): (p: string)
    ensures |p| == if |eventName| < 2 then |eventName| else 2
    ensures forall i :: 0 <= i < |p| ==> p[i] == LowerChar(eventName[i])
  {
    ToLower(Take(eventName, 2))
  }

  /** The per-registration ID: the event prefix and the captain roll for an
      INTERNAL team, otherwise the prefix, "EXT" and the last eight digits of
      the captain phone. */
  function ContactId(eventName: string, r: Registration): string {
    if r.participantType == Internal then EventPrefix(eventName) + r.capRoll.GetOr("undefined")
    else EventPrefix(eventName) + "EXT" + TakeLast(KeepDigits(r.capPhone), 8)
  }

  /** For stored registrations the ID is the prefix and the roll, or the
      prefix, "EXT" and the phone without its first two digits. */
  lemma ContactIdOfStored(eventName: string, r: Registration)
    requires Conforms(r)
    ensures r.participantType == Internal ==> ContactId(eventName, r) == EventPrefix(eventName) + r.capRoll.value
    ensures r.participantType == External ==> ContactId(eventName, r) == EventPrefix(eventName) + "EXT" + r.capPhone[2..]
  {
    MobileIsDigits(r.capPhone);
  }

  lemma PrefixCancel(p: string, a: string, b: string)
    requires p + a == p + b
    ensures a == b
  {
    assert a == (p + a)[|p|..];
    assert b == (p + b)[|p|..];
  }

  /** Within one event, stored INTERNAL teams get the same ID only when they
      have the same captain roll, and never the ID of an EXTERNAL team;
      stored EXTERNAL teams get the same ID exactly when their captain phones
      agree after the first two digits. */
  lemma ContactIdsOfStored(eventName: string, x: Registration, y: Registration)
    requires Conforms(x) && Conforms(y)
    ensures x.participantType == Internal && y.participantType == Internal ==>
      (ContactId(eventName, x) == ContactId(eventName, y) <==> x.capRoll == y.capRoll)
    ensures x.participantType == Internal && y.participantType == External ==>
      ContactId(eventName, x) != ContactId(eventName, y)
    ensures x.participantType == External && y.participantType == External ==>
      (ContactId(eventName, x) == ContactId(eventName, y) <==> x.capPhone[2..] == y.capPhone[2..])
  {
    ContactIdOfStored(eventName, x);
    ContactIdOfStored(eventName, y);
    var p := EventPrefix(eventName);
    if x.participantType == Internal && y.participantType == Internal && ContactId(eventName, x) == ContactId(eventName, y) {
      PrefixCancel(p, x.capRoll.value, y.capRoll.value);
    }
    if x.participantType == Internal && y.participantType == External {
      var ix := ContactId(eventName, x);
      var iy := ContactId(eventName, y);
      assert ix[|p|] == x.capRoll.value[0];
      assert iy[|p|] == 'E';
    }
    if x.participantType == External && y.participantType == External && ContactId(eventName, x) == ContactId(eventName, y) {
      PrefixCancel(p + "EXT", x.capPhone[2..], y.capPhone[2..]);
    }
  }

  /** In a consistent store the INTERNAL teams of an event all get distinct IDs. */
  lemma StoredInternalIdsDistinct(regs: seq<Registration>, eventName: string, i: nat, j: nat)
    requires IndexesHold(regs) && forall x :: x in regs ==> Conforms(x)
    requires i < |regs| && j < |regs| && i != j
    requires regs[i].eventName == eventName == regs[j].eventName
    requires regs[i].participantType == Internal && regs[j].participantType == Internal
    ensures ContactId(eventName, regs[i]) != ContactId(eventName, regs[j])
  {
    IndexesMeanUnique(regs);
    ContactIdsOfStored(eventName, regs[i], regs[j]);
  }

  // ---------------------------------------------------------------------
  // Spreadsheet columns

  datatype ColumnKey =
    | TeamNameKey | CapNameKey | CapPhoneKey | CapRollKey | TypeKey | RegAtKey
    | MemNameKey(i: nat) | MemRollKey(i: nat) | MemPhoneKey(i: nat)
  {
    predicate IsMemberKey() { MemNameKey? || MemRollKey? || MemPhoneKey? }
  }

  /** The key as the row object names it. */
  function KeyName(k: ColumnKey): string {
    match k
    case TeamNameKey => "teamName"
    case CapNameKey => "capName"
    case CapPhoneKey => "capPhone"
    case CapRollKey => "capRoll"
    case TypeKey => "type"
    case RegAtKey => "regAt"
    case MemNameKey(i) => "m" + NatToString(i) + "Name"
    case MemRollKey(i) => "m" + NatToString(i) + "Roll"
    case MemPhoneKey(i) => "m" + NatToString(i) + "Phone"
  }

  datatype Column = Column(header: string, key: ColumnKey, width: nat)

  const FixedColumns: seq<Column> := [
    Column("Team Name", TeamNameKey, 25),
    Column("Captain Name", CapNameKey, 20),
    Column("Captain Phone", CapPhoneKey, 15),
    Column("Captain Roll", CapRollKey, 15),
    Column("Type", TypeKey, 10),
    Column("Registered At", RegAtKey, 20)]

  /** The three columns of the `i`-th member (counting from 1). */
  function MemberColumns(i: nat): seq<Column> {
    [Column("Mem " + NatToString(i) + " Name", MemNameKey(i), 20),
     Column("Mem " + NatToString(i) + " Roll", MemRollKey(i), 15),
     Column("Mem " + NatToString(i) + " Phone", MemPhoneKey(i), 15)]
  }

  /** The columns for a sheet whose largest team has `n` members. */
  function ColumnsFor(n: nat): (cs: seq<Column>)
    ensures |cs| == 6 + 3 * n
  {
    if n == 0 then FixedColumns else ColumnsFor(n - 1) + MemberColumns(n)
  }

  /** Six fixed columns, then Name, Roll and Phone of each member in turn. */
  lemma {:induction false} ColumnsOrder(n: nat)
    ensures ColumnsFor(n)[..6] == FixedColumns
    ensures forall i :: 1 <= i <= n ==> ColumnsFor(n)[3 + 3 * i..6 + 3 * i] == MemberColumns(i)
  {
    if n > 0 {
      ColumnsOrder(n - 1);
      var prev := ColumnsFor(n - 1);
      var cs := ColumnsFor(n);
      assert cs[..|prev|] == prev;
      assert cs[..6] == prev[..6];
      forall i | 1 <= i < n ensures cs[3 + 3 * i..6 + 3 * i] == MemberColumns(i) {
        assert cs[3 + 3 * i..6 + 3 * i] == prev[3 + 3 * i..6 + 3 * i];
      }
      assert cs[3 + 3 * n..6 + 3 * n] == MemberColumns(n);
    }
  }

  predicate HasColumn(cs: seq<Column>, k: ColumnKey) {
    exists c :: c in cs && c.key == k
  }

  lemma HasColumnAppend(a: seq<Column>, b: seq<Column>, k: ColumnKey)
    ensures HasColumn(a + b, k) <==> HasColumn(a, k) || HasColumn(b, k)
  {
    if HasColumn(a + b, k) {
      var c :| c in a + b && c.key == k;
      assert c in a || c in b;
    }
    if HasColumn(a, k) {
      var c :| c in a && c.key == k;
      assert c in a + b;
    }
    if HasColumn(b, k) {
      var c :| c in b && c.key == k;
      assert c in a + b;
    }
  }

  lemma MemberColumnKeys(n: nat, k: ColumnKey)
    ensures HasColumn(MemberColumns(n), k) <==> k.IsMemberKey() && k.i == n
  {
    var m := MemberColumns(n);
    if k.IsMemberKey() && k.i == n {
      var c := if k.MemNameKey? then m[0] else if k.MemRollKey? then m[1] else m[2];
      assert c in m && c.key == k;
    }
  }

  lemma FixedColumnKeys(k: ColumnKey)
    ensures HasColumn(FixedColumns, k) <==> !k.IsMemberKey()
  {
    var cs := FixedColumns;
    if !k.IsMemberKey() {
      var c := if k == TeamNameKey then cs[0] else if k == CapNameKey then cs[1]
        else if k == CapPhoneKey then cs[2] else if k == CapRollKey then cs[3]
        else if k == TypeKey then cs[4] else cs[5];
      assert c in cs && c.key == k;
    }
  }

  /** The sheet has a column for a key exactly when the key is fixed or
      belongs to a member from 1 to `n`. */
  lemma {:induction false} ColumnKeys(n: nat, k: ColumnKey)
    ensures HasColumn(ColumnsFor(n), k) <==> (!k.IsMemberKey() || 1 <= k.i <= n)
  {
    if n > 0 {
      ColumnKeys(n - 1, k);
      HasColumnAppend(ColumnsFor(n - 1), MemberColumns(n), k);
      MemberColumnKeys(n, k);
    } else {
      FixedColumnKeys(k);
    }
  }

  /** Every member column of `ColumnsFor(n)` belongs to a member up to `n`. */
  lemma {:induction false} ColumnKeysBounded(n: nat, a: nat)
    requires a < |ColumnsFor(n)|
    ensures ColumnsFor(n)[a].key.IsMemberKey() ==> 1 <= ColumnsFor(n)[a].key.i <= n
  {
    if n > 0 {
      var prev := ColumnsFor(n - 1);
      if a < |prev| {
        ColumnKeysBounded(n - 1, a);
        assert ColumnsFor(n)[a] == prev[a];
      } else {
        assert ColumnsFor(n)[a] == MemberColumns(n)[a - |prev|];
      }
    }
  }

  /** No two columns share a key. */
  lemma {:induction false} ColumnKeysDistinct(n: nat)
    ensures forall a, b :: 0 <= a < b < |ColumnsFor(n)| ==> ColumnsFor(n)[a].key != ColumnsFor(n)[b].key
  {
    if n > 0 {
      ColumnKeysDistinct(n - 1);
      var prev := ColumnsFor(n - 1);
      var m := MemberColumns(n);
      var cs := ColumnsFor(n);
      forall a, b | 0 <= a < b < |cs| ensures cs[a].key != cs[b].key {
        if b >= |prev| && a < |prev| {
          assert cs[a] == prev[a];
          assert cs[b] == m[b - |prev|];
          ColumnKeysBounded(n - 1, a);
        } else if a < |prev| {
          assert cs[a] == prev[a] && cs[b] == prev[b];
        } else {
          assert cs[a] == m[a - |prev|] && cs[b] == m[b - |prev|];
        }
      }
    }
  }

  /** The `for` loop that pushes three columns per member slot. */
  method BuildColumns(maxTeamMembers: nat) returns (columns: seq<Column>)
    ensures columns == ColumnsFor(maxTeamMembers)
  {
    columns := FixedColumns;
    var i := 1;
    while i <= maxTeamMembers
      invariant 1 <= i <= maxTeamMembers + 1
      invariant columns == ColumnsFor(i - 1)
    {
      columns := columns + [Column("Mem " + NatToString(i) + " Name", MemNameKey(i), 20)];
      columns := columns + [Column("Mem " + NatToString(i) + " Roll", MemRollKey(i), 15)];
      columns := columns + [Column("Mem " + NatToString(i) + " Phone", MemPhoneKey(i), 15)];
      i := i + 1;
    }
  }

  /** The size of the largest team. */
  function MaxTeamSize(regs: seq<Registration>): nat {
    if regs == [] then 0
    else
      var rest := MaxTeamSize(regs[..|regs| - 1]);
      var last := regs[|regs| - 1];
      if |last.teamMembers| > rest then |last.teamMembers| else rest
  }

  /** No team is larger, and some team is this large unless there is none
      with members. */
  lemma {:induction false} MaxTeamSizeIsMax(regs: seq<Registration>)
    ensures forall x :: x in regs ==> |x.teamMembers| <= MaxTeamSize(regs)
    ensures MaxTeamSize(regs) == 0 || exists x :: x in regs && |x.teamMembers| == MaxTeamSize(regs)
  {
    if regs != [] {
      var init := regs[..|regs| - 1];
      MaxTeamSizeIsMax(init);
      assert forall x :: x in regs ==> x in init || x == regs[|regs| - 1];
      if MaxTeamSize(init) > 0 && MaxTeamSize(regs) == MaxTeamSize(init) {
        var x :| x in init && |x.teamMembers| == MaxTeamSize(init);
        assert x in regs;
      }
    }
  }

  /** The `forEach` that raises `maxTeamMembers`. */
  method ComputeMaxTeamSize(regs: seq<Registration>) returns (maxTeamMembers: nat)
    ensures maxTeamMembers == MaxTeamSize(regs)
  {
    maxTeamMembers := 0;
    var i := 0;
    while i < |regs|
      invariant 0 <= i <= |regs|
      invariant maxTeamMembers == MaxTeamSize(regs[..i])
    {
      assert regs[..i + 1][..i] == regs[..i];
      if |regs[i].teamMembers| > maxTeamMembers {
        maxTeamMembers := |regs[i].teamMembers|;
      }
      i := i + 1;
    }
    assert regs[..|regs|] == regs;
  }

  // ---------------------------------------------------------------------
  // Spreadsheet rows

  /** A cell: text, nothing (an undefined value), or a point in time (its
      locale formatting is not modelled). */
  datatype Cell = Text(s: string) | Missing | Time(millis: int)

  type Row = map<ColumnKey, Cell>

  function OptCell(o: Option<string>): Cell {
    match o
    case Some(s) => Text(s)
    case None => Missing
  }

  /** `value || '-'`. */
  function OrDash(s: string): string { if s == "" then "-" else s }
  function OptOrDash(o: Option<string>): string { if Truthy(o) then o.value else "-" }

  /** The captain's cells; the roll cell says "EXTERNAL" for a team that is
      not INTERNAL. */
  function FixedCells(r: Registration): Row {
    map[TeamNameKey := Text(r.teamName),
        CapNameKey := Text(r.capName),
        CapPhoneKey := Text(r.capPhone),
        CapRollKey := (if r.participantType == Internal then OptCell(r.capRoll) else Text("EXTERNAL")),
        TypeKey := Text(ParticipantTypeName(r.participantType)),
        RegAtKey := Time(r.createdAt)]
  }

  /** `row` with the cells of the members `ms`, numbered from 1. */
  function WithMemberCells(row: Row, ms: seq<Member>): Row {
    if ms == [] then row
    else
      var n := |ms|;
      var m := ms[n - 1];
      WithMemberCells(row, ms[..n - 1])
        [MemNameKey(n) := Text(OrDash(m.memName))]
        [MemRollKey(n) := Text(OptOrDash(m.memRoll))]
        [MemPhoneKey(n) := Text(OrDash(m.memPhone))]
  }

  function RowFor(r: Registration): Row {
    WithMemberCells(FixedCells(r), r.teamMembers)
  }

  /** The row object built per registration and its member loop. */
  method BuildRow(r: Registration) returns (row: Row)
    ensures row == RowFor(r)
  {
    row := FixedCells(r);
    var ms := r.teamMembers;
    var index := 0;
    while index < |ms|
      invariant 0 <= index <= |ms|
      invariant row == WithMemberCells(FixedCells(r), ms[..index])
    {
      assert ms[..index + 1][..index] == ms[..index];
      var member := ms[index];
      var i := index + 1;
      row := row[MemNameKey(i) := Text(OrDash(member.memName))];
      row := row[MemRollKey(i) := Text(OptOrDash(member.memRoll))];
      row := row[MemPhoneKey(i) := Text(OrDash(member.memPhone))];
      index := index + 1;
    }
    assert ms[..|ms|] == ms;
  }

  method BuildRows(regs: seq<Registration>) returns (rows: seq<Row>)
    ensures |rows| == |regs| && forall i :: 0 <= i < |regs| ==> rows[i] == RowFor(regs[i])
  {
    rows := [];
    var i := 0;
    while i < |regs|
      invariant 0 <= i <= |regs|
      invariant |rows| == i && forall j :: 0 <= j < i ==> rows[j] == RowFor(regs[j])
    {
      var row := BuildRow(regs[i]);
      rows := rows + [row];
      i := i + 1;
    }
  }

  lemma {:induction false} MemberCellsDomain(row: Row, ms: seq<Member>)
    requires forall k :: k in row ==> !k.IsMemberKey()
    ensures forall k :: k in WithMemberCells(row, ms) <==> k in row || (k.IsMemberKey() && 1 <= k.i <= |ms|)
    ensures forall k :: k in row ==> WithMemberCells(row, ms)[k] == row[k]
  {
    if ms != [] {
      MemberCellsDomain(row, ms[..|ms| - 1]);
    }
  }

  lemma {:induction false} MemberCellsValues(row: Row, ms: seq<Member>)
    ensures forall i :: 1 <= i <= |ms| ==>
      && MemNameKey(i) in WithMemberCells(row, ms) && MemRollKey(i) in WithMemberCells(row, ms)
      && MemPhoneKey(i) in WithMemberCells(row, ms)
      && WithMemberCells(row, ms)[MemNameKey(i)] == Text(OrDash(ms[i - 1].memName))
      && WithMemberCells(row, ms)[MemRollKey(i)] == Text(OptOrDash(ms[i - 1].memRoll))
      && WithMemberCells(row, ms)[MemPhoneKey(i)] == Text(OrDash(ms[i - 1].memPhone))
  {
    if ms != [] {
      var p := ms[..|ms| - 1];
      MemberCellsValues(row, p);
      assert forall j :: 0 <= j < |p| ==> p[j] == ms[j];
    }
  }

  /** The captain's cells and, for each member, Name, Roll and Phone, with
      '-' for a missing value; a row holds nothing more. */
  lemma RowLayout(r: Registration)
    ensures forall k :: k in RowFor(r) <==> !k.IsMemberKey() || 1 <= k.i <= |r.teamMembers|
    ensures CapRollKey in RowFor(r) && RowFor(r)[CapRollKey] == if r.participantType == Internal then OptCell(r.capRoll) else Text("EXTERNAL")
    ensures forall i :: 1 <= i <= |r.teamMembers| ==>
      && MemNameKey(i) in RowFor(r) && MemRollKey(i) in RowFor(r) && MemPhoneKey(i) in RowFor(r)
      && RowFor(r)[MemNameKey(i)] == Text(OrDash(r.teamMembers[i - 1].memName))
      && RowFor(r)[MemRollKey(i)] == Text(OptOrDash(r.teamMembers[i - 1].memRoll))
      && RowFor(r)[MemPhoneKey(i)] == Text(OrDash(r.teamMembers[i - 1].memPhone))
  {
    var fixed := FixedCells(r);
    assert forall k :: k in fixed <==> !k.IsMemberKey() by {
      forall k ensures k in fixed <==> !k.IsMemberKey() {
        match k
        case MemNameKey(_) =>
        case MemRollKey(_) =>
        case MemPhoneKey(_) =>
        case _ =>
      }
    }
    MemberCellsDomain(fixed, r.teamMembers);
    MemberCellsValues(fixed, r.teamMembers);
  }

  /** Every cell of every row falls under one of the sheet's columns. */
  lemma RowsFitColumns(regs: seq<Registration>, r: Registration)
    requires r in regs
    ensures forall k :: k in RowFor(r) ==> HasColumn(ColumnsFor(MaxTeamSize(regs)), k)
  {
    RowLayout(r);
    MaxTeamSizeIsMax(regs);
    forall k | k in RowFor(r) ensures HasColumn(ColumnsFor(MaxTeamSize(regs)), k) {
      ColumnKeys(MaxTeamSize(regs), k);
    }
  }

  // ---------------------------------------------------------------------
  // Contact cards

  datatype Card = Card(name: string, phone: string, filename: string)

  /** The captain's card `<id>-1`, and `<id>-2` for the first member when
      there is one with a phone. */
  function CardsFor(eventName: string, r: Registration): seq<Card> {
    var id := ContactId(eventName, r);
    [Card(r.capName, r.capPhone, id + "-1")]
      + (if |r.teamMembers| > 0 && r.teamMembers[0].memPhone != "" then
           [Card(r.teamMembers[0].memName, r.teamMembers[0].memPhone, id + "-2")]
         else [])
  }

  function AllCards(eventName: string, regs: seq<Registration>): seq<Card> {
    if regs == [] then [] else AllCards(eventName, regs[..|regs| - 1]) + CardsFor(eventName, regs[|regs| - 1])
  }

  /** The texts one after another. */
  function Concat(ts: seq<string>): string {
    if ts == [] then "" else Concat(ts[..|ts| - 1]) + ts[|ts| - 1]
  }

  lemma {:induction false} ConcatAppend(a: seq<string>, b: seq<string>)
    ensures Concat(a + b) == Concat(a) + Concat(b)
    decreases |b|
  {
    if b == [] {
      assert a + b == a;
    } else {
      var t := a + b;
      var init := b[..|b| - 1];
      assert t[..|t| - 1] == a + init;
      assert t[|t| - 1] == b[|b| - 1];
      ConcatAppend(a, init);
    }
  }

  function CardText(c: Card): string {
    GenerateVCard(c.name, c.phone, c.filename)
  }

  function Render(cards: seq<Card>): (t: seq<string>)
    ensures |t| == |cards| && forall i :: 0 <= i < |cards| ==> t[i] == CardText(cards[i])
  {
    seq(|cards|, i requires 0 <= i < |cards| => CardText(cards[i]))
  }

  /** The `.vcf` text of the first export: every card of every registration,
      in order. */
  function Vcf(eventName: string, regs: seq<Registration>): string {
    Concat(Render(AllCards(eventName, regs)))
  }

  /** The export of the first `i + 1` registrations extends that of the
      first `i` by registration `i`'s cards. */
  lemma VcfStep(eventName: string, regs: seq<Registration>, i: nat)
    requires i < |regs|
    ensures Vcf(eventName, regs[..i + 1]) == Vcf(eventName, regs[..i]) + Concat(Render(CardsFor(eventName, regs[i])))
  {
    var t := regs[..i + 1];
    assert t[..|t| - 1] == regs[..i];
    assert t[|t| - 1] == regs[i];
    var a := AllCards(eventName, regs[..i]);
    var b := CardsFor(eventName, regs[i]);
    assert AllCards(eventName, t) == a + b;
    assert Render(a + b) == Render(a) + Render(b);
    ConcatAppend(Render(a), Render(b));
  }

  /** The text one registration adds: the captain's card, then the first
      member's card when that member has a phone. */
  lemma RegistrationCardsText(eventName: string, r: Registration)
    ensures Concat(Render(CardsFor(eventName, r)))
      == if |r.teamMembers| > 0 && r.teamMembers[0].memPhone != "" then
           GenerateVCard(r.capName, r.capPhone, ContactId(eventName, r) + "-1")
           + GenerateVCard(r.teamMembers[0].memName, r.teamMembers[0].memPhone, ContactId(eventName, r) + "-2")
         else GenerateVCard(r.capName, r.capPhone, ContactId(eventName, r) + "-1")
  {
    var t := Render(CardsFor(eventName, r));
    assert Concat(t[..1]) == t[0] by {
      assert t[..1][..0] == [];
    }
    if |t| == 2 {
      assert t[..|t| - 1] == t[..1];
    } else {
      assert t[..|t| - 1] == [];
    }
  }

  /** The `forEach` that appends each registration's cards to `vCardContent`. */
  method BuildVcf(eventName: string, regs: seq<Registration>) returns (vCardContent: string)
    ensures vCardContent == Vcf(eventName, regs)
  {
    vCardContent := "";
    var i := 0;
    while i < |regs|
      invariant 0 <= i <= |regs|
      invariant vCardContent == Vcf(eventName, regs[..i])
    {
      var reg := regs[i];
      VcfStep(eventName, regs, i);
      RegistrationCardsText(eventName, reg);
      var uniqueId := ContactId(eventName, reg);
      var cards := GenerateVCard(reg.capName, reg.capPhone, uniqueId + "-1");
      if |reg.teamMembers| > 0 && reg.teamMembers[0].memPhone != "" {
        var first := reg.teamMembers[0];
        cards := cards + GenerateVCard(first.memName, first.memPhone, uniqueId + "-2");
      }
      vCardContent := vCardContent + cards;
      i := i + 1;
    }
    assert regs[..|regs|] == regs;
  }

  /** A stored registration yields its captain's card and, exactly when the
      team has a member, the first member's card; others are never exported. */
  lemma StoredCards(eventName: string, r: Registration)
    requires Conforms(r)
    ensures |CardsFor(eventName, r)| == if |r.teamMembers| > 0 then 2 else 1
    ensures CardsFor(eventName, r)[0] == Card(r.capName, r.capPhone, ContactId(eventName, r) + "-1")
    ensures |r.teamMembers| > 0 ==>
      CardsFor(eventName, r)[1] == Card(r.teamMembers[0].memName, r.teamMembers[0].memPhone, ContactId(eventName, r) + "-2")
  {
    if |r.teamMembers| > 0 {
      assert r.teamMembers[0] in r.teamMembers;
    }
  }

  /** The export holds at least one and at most two cards per registration. */
  lemma {:induction false} CardCount(eventName: string, regs: seq<Registration>)
    ensures |regs| <= |AllCards(eventName, regs)| <= 2 * |regs|
  {
    if regs != [] {
      CardCount(eventName, regs[..|regs| - 1]);
    }
  }
}
