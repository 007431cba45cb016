/**
 * The members hook: saving a member (validation, normalisation, then update or insert with an
 * income for a new member), renewing a membership, and the hook's own copies of the members
 * list and of the membership types.
 */
module Registry {
  import opened Wrappers
  import opened Text
  import opened Calendar
  import opened DateText
  import opened Records
  import opened Plans
  import opened TableStore

  /** What `saveMember` throws. */
  datatype SaveError =
    | DniRequired | NameRequired | TypeRequired | StartRequired
    | InvalidStartDate  // date-fns cannot format the expiry of a start that is not a date
    | LookupFailed      // the existence query failed
    | WriteFailed       // the update or the insert failed

  /** The members table after an upsert, and whether the row was new. */
  datatype Upserted = Upserted(rows: seq<Member>, inserted: bool)

  /** `memberData.phone?.trim() || null`. */
  function NormalisePhone(phone: Option<string>): (r: Option<string>)
    ensures r.Some? ==> r.value != [] && phone.Some? && r.value == Trim(phone.value)
    ensures r.None? <==> phone.None? || IsBlank(phone.value)
  {
    match phone
    case None => None
    case Some(p) => if Trim(p) == [] then None else Some(Trim(p))
  }

  /**
   * The checks and the record `saveMember` builds before touching the store: the four required
   * fields in order, then the member with dni and name trimmed, the mapped plan key, the start
   * date as given and the expiry computed from the key as given.
   */
  function PrepareMember(plans: seq<Plan>, input: MemberInput): Result<Member, SaveError> {
    if input.dni == "" then Err(DniRequired)
    else if input.name == "" then Err(NameRequired)
    else if input.membershipType == "" then Err(TypeRequired)
    else if input.startDate == "" then Err(StartRequired)
    else
      match CalculateExpiryDate(plans, input.startDate, input.membershipType)
      case None => Err(InvalidStartDate)
      case Some(expiry) =>
        Ok(Member(Trim(input.dni), Trim(input.name), NormalisePhone(input.phone),
                  MapToCompatible(plans, input.membershipType), input.startDate, expiry))
  }

  predicate HasDni(rows: seq<Member>, dni: string) {
    exists i :: 0 <= i < |rows| && rows[i].dni == dni
  }

  /** `update(record).eq('dni', dni)`: every row with that dni becomes the record. */
  function UpdateRows(rows: seq<Member>, dni: string, m: Member): (r: seq<Member>)
    ensures |r| == |rows|
    ensures forall i :: 0 <= i < |rows| ==> r[i] == if rows[i].dni == dni then m else rows[i]
  {
    seq(|rows|, i requires 0 <= i < |rows| => if rows[i].dni == dni then m else rows[i])
  }

  /**
   * The upsert of `saveMember` as written: both the existence check and the update match the
   * dni as typed, while the record carries the trimmed dni. The check is `maybeSingle`, which
   * yields the row when exactly one matches, null when none does, and the error PGRST116 when
   * several do; that error is skipped as if no row matched, so the record is inserted again.
   */
  function UpsertAsWritten(rows: seq<Member>, typedDni: string, m: Member): Upserted {
    if |RowsWithDni(rows, typedDni)| == 1 then Upserted(UpdateRows(rows, typedDni, m), false)
    else Upserted([m] + rows, true)
  }

  /**
   * The upsert as intended: matched on the dni the record is stored under, and an update
   * whenever some row carries it, however many do.
   */
  function Upsert(rows: seq<Member>, m: Member): (u: Upserted)
    ensures u.inserted <==> !HasDni(rows, m.dni)
    ensures u.inserted ==> u.rows == [m] + rows
    ensures !u.inserted ==> u.rows == UpdateRows(rows, m.dni, m)
  {
    if HasDni(rows, m.dni) then Upserted(UpdateRows(rows, m.dni, m), false)
    else Upserted([m] + rows, true)
  }

  /**
   * `saveMember` on the members table: `Ok` with the new table, or what it throws. `lookupOk`
   * is false when the existence query fails with an error other than PGRST116.
   */
  function SaveMemberSpec(plans: seq<Plan>, rows: seq<Member>, input: MemberInput,
                          lookupOk: bool, writeOk: bool): Result<Upserted, SaveError>
  {
    match PrepareMember(plans, input)
    case Err(e) => Err(e)
    case Ok(m) =>
      if !lookupOk then Err(LookupFailed)
      else if !writeOk then Err(WriteFailed)
      else Ok(Upsert(rows, m))
  }

  /** The income recorded for a new member: priced and named by the plan key as given. */
  function NewMemberIncome(plans: seq<Plan>, input: MemberInput, today: Date, now: string): TxInput
    requires Valid(today)
  {
    TxInput(Income, MembershipPrice(plans, input.membershipType),
            "Membresía " + SaveConceptName(plans, input.membershipType) + " - " + input.name,
            FormatYmd(today), now)
  }

  /** `update({start_date, expiry_date}).eq('dni', dni)`. */
  function RenewRows(rows: seq<Member>, dni: string, start: string, expiry: string): (r: seq<Member>)
    ensures |r| == |rows|
  {
    seq(|rows|, i requires 0 <= i < |rows| =>
      if rows[i].dni == dni then rows[i].(startDate := start, expiryDate := expiry) else rows[i])
  }

  /** The income recorded for a renewal: priced by the member's key, dated with the renewal's start. */
  function RenewalIncome(plans: seq<Plan>, m: Member, start: string, now: string): TxInput
  {
    TxInput(Income, MembershipPrice(plans, m.membershipType),
            "Renovación " + RenewConceptName(plans, m.membershipType) + " - " + m.name,
            start, now)
  }

  /** A renewal about to be written: the member found in the hook's copy and its new dates. */
  datatype Renewal = Renewal(member: Member, start: string, expiry: string)

  /**
   * What `renewMembership` will write: the first member of the copy with that dni, starting on
   * `start` (today's 'yyyy-MM-dd' text), with the expiry of its plan key from there; `None` when
   * the dni is not in the copy or the expiry cannot be formatted.
   */
  function RenewalPlan(plans: seq<Plan>, copy: seq<Member>, dni: string, start: string): Option<Renewal>
  {
    match FirstWithDni(copy, dni)
    case None => None
    case Some(m) =>
      match CalculateExpiryDate(plans, start, m.membershipType)
      case None => None
      case Some(expiry) => Some(Renewal(m, start, expiry))
  }

  class MembersHook {
    /** The hook's copy of the members table. */
    var members: seq<Member>
    /** The membership types the hook resolves plan keys against. */
    var plans: seq<Plan>
    const store: Store

    constructor (store: Store)
      ensures this.store == store && members == [] && plans == []
    {
      this.store := store;
      members, plans := [], [];
    }

    /** `loadMembershipTypes`: the admin table's rows, or the defaults when it cannot be read. */
    method LoadMembershipTypes(response: Option<seq<PlanRow>>)
      modifies this`plans
      ensures plans == LoadedPlans(response) && WellFormedPlans(plans)
    {
      plans := LoadedPlans(response);
      LoadedPlansWellFormed(response);
    }

    /** `fetchMembers`: the table replaces the copy; a failed read keeps the old copy. */
    method FetchMembers(ok: bool)
      modifies this`members
      ensures members == if ok then store.members else old(members)
    {
      if ok {
        members := store.members;
      }
    }

    /**
     * `saveMember`. On success the members table is upserted, a new member's income is
     * appended when the ledger accepts it, and the copy is re-read (`fetchMembers`, which keeps
     * the old copy when the read fails); on any error nothing changes.
     */
    method SaveMember(input: MemberInput, today: Date, now: string, lookupOk: bool, writeOk: bool,
                      ledgerOk: bool, fetchOk: bool) returns (r: Result<Upserted, SaveError>)
      requires Valid(today) && store.Valid()
      modifies this`members, store
      ensures store.Valid()
      ensures r == SaveMemberSpec(plans, old(store.members), input, lookupOk, writeOk)
      ensures store.members == if r.Ok? then r.value.rows else old(store.members)
      ensures store.checkins == old(store.checkins)
      ensures store.transactions == if r.Ok? && r.value.inserted && ledgerOk
        then [TxRow(old(store.nextId), NewMemberIncome(plans, input, today, now))] + old(store.transactions)
        else old(store.transactions)
      ensures members == if r.Ok? && fetchOk then store.members else old(members)
    {
      r := SaveMemberSpec(plans, store.members, input, lookupOk, writeOk);
      if r.Err? {
        return;
      }
      store.SetMembers(r.value.rows);
      if r.value.inserted && ledgerOk {
        var _ := store.InsertTransaction(NewMemberIncome(plans, input, today, now));
      }
      FetchMembers(fetchOk);
    }

    /**
     * `renewMembership`, with `today` the 'yyyy-MM-dd' text of the clock it reads: nothing for a
     * dni the copy does not hold, nor when the update fails; otherwise every row with that dni
     * starts today with a recomputed expiry, one income dated today is appended when the ledger
     * accepts it, and the copy is re-read when that read succeeds. The renewal written is returned.
     */
    method RenewMembership(dni: string, today: string, now: string, writeOk: bool, ledgerOk: bool,
                           fetchOk: bool)
      returns (renewal: Option<Renewal>)
      requires store.Valid()
      modifies this`members, store
      ensures store.Valid()
      ensures renewal == if writeOk then RenewalPlan(plans, old(members), dni, today) else None
      ensures store.members == if renewal.Some? then
        RenewRows(old(store.members), dni, renewal.value.start, renewal.value.expiry)
        else old(store.members)
      ensures store.transactions == if renewal.Some? && ledgerOk then
        [TxRow(old(store.nextId), RenewalIncome(plans, renewal.value.member, renewal.value.start, now))]
          + old(store.transactions)
        else old(store.transactions)
      ensures members == if renewal.Some? && fetchOk then store.members else old(members)
      ensures store.checkins == old(store.checkins)
    {
      renewal := if writeOk then RenewalPlan(plans, members, dni, today) else None;
      if renewal.None? {
        return;
      }
      var r := renewal.value;
      store.SetMembers(RenewRows(store.members, dni, r.start, r.expiry));
      if ledgerOk {
        var _ := store.InsertTransaction(RenewalIncome(plans, r.member, r.start, now));
      }
      FetchMembers(fetchOk);
    }
  }

  // ---------------------------------------------------------------------------------------------
  // Properties

  predicate UniqueDnis(rows: seq<Member>) {
    forall i, j :: 0 <= i < j < |rows| ==> rows[i].dni != rows[j].dni
  }

  /** A missing required field is rejected before the store is touched, in the source's order. */
  lemma SaveRejectsMissingFields(plans: seq<Plan>, rows: seq<Member>, input: MemberInput,
                                 lookupOk: bool, writeOk: bool)
    ensures input.dni == "" ==> SaveMemberSpec(plans, rows, input, lookupOk, writeOk) == Err(DniRequired)
    ensures input.dni != "" && input.name == "" ==>
      SaveMemberSpec(plans, rows, input, lookupOk, writeOk) == Err(NameRequired)
    ensures input.dni != "" && input.name != "" && input.membershipType == "" ==>
      SaveMemberSpec(plans, rows, input, lookupOk, writeOk) == Err(TypeRequired)
    ensures input.dni != "" && input.name != "" && input.membershipType != "" && input.startDate == "" ==>
      SaveMemberSpec(plans, rows, input, lookupOk, writeOk) == Err(StartRequired)
  {
  }

  /**
   * The saved record: dni and name trimmed, phone trimmed or absent, the mapped key (a legacy
   * key over well-formed plans), the start as given, and the expiry of the key as given.
   */
  lemma PreparedRecord(plans: seq<Plan>, input: MemberInput, m: Member)
    requires WellFormedPlans(plans)
    requires PrepareMember(plans, input) == Ok(m)
    ensures m.dni == Trim(input.dni) && m.name == Trim(input.name)
    ensures m.phone == NormalisePhone(input.phone)
    ensures m.membershipType == MapToCompatible(plans, input.membershipType) && IsLegacyKey(m.membershipType)
    ensures m.startDate == input.startDate
    ensures Some(m.expiryDate) == CalculateExpiryDate(plans, input.startDate, input.membershipType)
    ensures input.dni != "" && input.name != "" && input.membershipType != "" && input.startDate != ""
  {
    MapToCompatibleIsLegacy(plans, input.membershipType);
  }

  /** The upsert keeps one row per dni, and afterwards exactly one row holds the saved record's dni. */
  lemma UpsertKeepsDnisUnique(rows: seq<Member>, m: Member)
    requires UniqueDnis(rows)
    ensures UniqueDnis(Upsert(rows, m).rows)
    ensures var r := Upsert(rows, m).rows; exists i :: 0 <= i < |r| && r[i] == m
  {
    var u := Upsert(rows, m);
    if u.inserted {
      assert u.rows[0] == m;
      forall i, j | 0 <= i < j < |u.rows| ensures u.rows[i].dni != u.rows[j].dni {
        if i > 0 {
          assert u.rows[i] == rows[i - 1] && u.rows[j] == rows[j - 1];
        } else {
          assert u.rows[j] == rows[j - 1];
        }
      }
    } else {
      var k :| 0 <= k < |rows| && rows[k].dni == m.dni;
      assert u.rows[k] == m;
    }
  }

  /** An update leaves every other member alone and adds no row. */
  lemma UpdateTouchesOnlyThatDni(rows: seq<Member>, m: Member)
    requires HasDni(rows, m.dni)
    ensures !Upsert(rows, m).inserted
    ensures forall i :: 0 <= i < |rows| && rows[i].dni != m.dni ==> Upsert(rows, m).rows[i] == rows[i]
    ensures |Upsert(rows, m).rows| == |rows|
  {
  }

  /**
   * As written, a dni typed with surrounding spaces misses the stored row, and the trimmed
   * record is inserted beside it: two rows share the dni.
   */
  lemma UpsertAsWrittenDuplicates(rows: seq<Member>, typedDni: string, m: Member)
    requires UniqueDnis(rows) && HasDni(rows, m.dni) && !HasDni(rows, typedDni)
    ensures UpsertAsWritten(rows, typedDni, m).inserted
    ensures !UniqueDnis(UpsertAsWritten(rows, typedDni, m).rows)
  {
    NoRowsWithAbsentDni(rows, typedDni);
    var r := UpsertAsWritten(rows, typedDni, m).rows;
    var k :| 0 <= k < |rows| && rows[k].dni == m.dni;
    assert r[0] == m && r[k + 1] == rows[k];
  }

  lemma NoRowsWithAbsentDni(rows: seq<Member>, dni: string)
    requires !HasDni(rows, dni)
    ensures RowsWithDni(rows, dni) == []
  {
    if rows != [] {
      assert rows == [rows[0]] + rows[1..];
      assert !HasDni(rows[1..], dni) by {
        forall i | 0 <= i < |rows[1..]| ensures rows[1..][i].dni != dni {
          assert rows[1..][i] == rows[i + 1];
        }
      }
      NoRowsWithAbsentDni(rows[1..], dni);
      RowsWithDniCons(rows[0], rows[1..], dni);
    }
  }

  /** The `eq('dni', …)` query over a row followed by a table. */
  lemma RowsWithDniCons(x: Member, rows: seq<Member>, dni: string)
    ensures RowsWithDni([x] + rows, dni) == (if x.dni == dni then [x] else []) + RowsWithDni(rows, dni)
  {
    assert ([x] + rows)[1..] == rows;
  }

  /** The smallest such input: member "123" on file, "123 " typed. */
  lemma TrailingSpaceDuplicatesMember(stored: Member, m: Member)
    requires stored.dni == "123" && m.dni == Trim("123 ")
    ensures m.dni == "123"
    ensures !UniqueDnis(UpsertAsWritten([stored], "123 ", m).rows)
  {
    TrimTrailingSpace("123 ");
    OneStoredRow(stored, "123 ");
    UpsertAsWrittenDuplicates([stored], "123 ", m);
  }

  /** A table of one row holds that row's dni, and no other. */
  lemma OneStoredRow(stored: Member, other: string)
    requires other != stored.dni
    ensures UniqueDnis([stored]) && HasDni([stored], stored.dni) && !HasDni([stored], other)
  {
    assert [stored][0] == stored;
  }

  lemma TrimTrailingSpace(s: string)
    requires s == "123 "
    ensures Trim(s) == "123"
  {
    assert !IsSpace(s[0]);
    TrimStartKeepsUnpadded(s);
    assert IsSpace(s[3]) && s[..3] == "123";
    assert TrimEnd(s) == TrimEnd("123");
    TrimEndKeepsUnpadded("123");
  }

  /** Matching on the trimmed dni updates the stored row instead. */
  lemma TrailingSpaceUpdatesMember(stored: Member, m: Member)
    requires stored.dni == "123" && m.dni == "123"
    ensures Upsert([stored], m) == Upserted([m], false)
  {
    assert [stored][0].dni == m.dni;
    assert UpdateRows([stored], "123", m) == [m];
  }

  /**
   * As written, a dni stored twice (the trailing-space duplicate leaves exactly that) makes
   * `maybeSingle` fail with PGRST116, which is taken for "no row": saving the member again
   * inserts a third row.
   */
  lemma StoredTwiceGetsThirdRow(a: Member, b: Member, m: Member)
    requires a.dni == "123" && b.dni == "123" && m.dni == "123"
    ensures UpsertAsWritten([a, b], "123", m) == Upserted([m, a, b], true)
  {
    RowsWithDniCons(b, [], "123");
    RowsWithDniCons(a, [b], "123");
    assert [a] + [b] == [a, b] && [b] + [] == [b];
    assert RowsWithDni([a, b], "123") == [a, b];
  }

  /** Matching on every stored row with the dni updates both rows instead, and adds none. */
  lemma StoredTwiceIsUpdated(a: Member, b: Member, m: Member)
    requires a.dni == "123" && b.dni == "123" && m.dni == "123"
    ensures Upsert([a, b], m) == Upserted([m, m], false)
  {
    assert [a, b][0].dni == m.dni;
    assert UpdateRows([a, b], "123", m) == [m, m];
  }

  /** A renewal changes the two dates of the matching rows and nothing else. */
  lemma RenewChangesOnlyDates(rows: seq<Member>, dni: string, start: string, expiry: string)
    ensures var r := RenewRows(rows, dni, start, expiry);
      forall i :: 0 <= i < |rows| ==>
        r[i].dni == rows[i].dni && r[i].name == rows[i].name && r[i].phone == rows[i].phone &&
        r[i].membershipType == rows[i].membershipType &&
        (rows[i].dni == dni ==> r[i].startDate == start && r[i].expiryDate == expiry) &&
        (rows[i].dni != dni ==> r[i] == rows[i])
  {
  }

  /** Renewing twice on the same day is renewing once. */
  lemma RenewIdempotent(rows: seq<Member>, dni: string, start: string, expiry: string)
    ensures RenewRows(RenewRows(rows, dni, start, expiry), dni, start, expiry) == RenewRows(rows, dni, start, expiry)
  {
  }

  /** The renewed rows do not depend on the dates they had before. */
  lemma RenewForgetsOldDates(a: seq<Member>, b: seq<Member>, dni: string, start: string, expiry: string)
    requires |a| == |b|
    requires forall i :: 0 <= i < |a| ==> a[i].(startDate := "", expiryDate := "") == b[i].(startDate := "", expiryDate := "")
    ensures forall i :: 0 <= i < |a| && a[i].dni == dni ==>
      RenewRows(a, dni, start, expiry)[i] == RenewRows(b, dni, start, expiry)[i]
  {
    forall i | 0 <= i < |a| && a[i].dni == dni
      ensures RenewRows(a, dni, start, expiry)[i] == RenewRows(b, dni, start, expiry)[i]
    {
      assert a[i].(startDate := "", expiryDate := "").dni == b[i].(startDate := "", expiryDate := "").dni;
    }
  }

  /**
   * A renewal started on today's text starts today and expires the plan's days later;
   * `format(today, 'yyyy-MM-dd')` is such a text (`ParseIsoOfFormatYmd`).
   */
  lemma RenewalFromToday(plans: seq<Plan>, copy: seq<Member>, dni: string, start: string, today: Date, m: Member)
    requires ParseIso(start) == Some(today)
    requires FirstWithDni(copy, dni) == Some(m)
    requires 1 <= AddDays(today, ExpiryOffset(plans, m.membershipType)).year <= 9999
    ensures RenewalPlan(plans, copy, dni, start).Some?
    ensures var p := RenewalPlan(plans, copy, dni, start).value;
      p.member == m && p.start == start &&
      ParseIso(p.expiry) == Some(AddDays(today, ExpiryOffset(plans, m.membershipType)))
  {
    ExpiryAddsOffset(plans, start, today, m.membershipType);
    var e := AddDays(today, ExpiryOffset(plans, m.membershipType));
    ParseIsoOfFormatYmd(e);
  }
}
