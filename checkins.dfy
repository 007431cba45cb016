/**
 * The check-ins hook: looking a member up by dni, classifying the membership on the day count,
 * recording the visit, and the hook's copy of today's check-ins.
 */
module CheckIns {
  import opened Wrappers
  import opened Text
  import opened Calendar
  import opened DateText
  import opened Records
  import opened Status
  import opened Ledger
  import opened TableStore

  /** What `checkInMember` returns for a member it found. */
  datatype CheckInResult = CheckInResult(
    member: Member,
    status: MembershipStatus,
    statusText: string,
    daysUntilExpiry: Option<int>)

  /**
   * `checkInMember` up to the insert: `None` for a blank dni, a failed search or no row with
   * the trimmed dni; otherwise the first row found, its day count and its bucket.
   */
  function CheckInOutcome(rows: seq<Member>, dni: string, today: Date, searchOk: bool): (r: Option<CheckInResult>)
    requires Valid(today)
    ensures IsBlank(dni) || !searchOk ==> r.None?
    ensures r.Some? ==> r.value.member.dni == Trim(dni) && r.value.member in rows
  {
    if IsBlank(dni) || !searchOk then None
    else
      var found := RowsWithDni(rows, Trim(dni));
      if found == [] then None
      else
        var m := found[0];
        var days := DaysUntilExpiry(today, m.expiryDate);
        var s := Classify(days);
        Some(CheckInResult(m, s, StatusText(s), days))
  }

  /** The row inserted into `checkins`: the member, the instant, and the status text shown. */
  function CheckInRecord(r: CheckInResult, now: string): (c: CheckIn)
    ensures c.memberDni == r.member.dni && c.memberName == r.member.name
    ensures c.checkInTime == now && c.membershipStatus == r.statusText
  {
    CheckIn(r.member.dni, r.member.name, now, r.statusText)
  }

  /** Lower bound of the day's query on `check_in_time`. */
  function DayStart(day: string): string {
    day + "T00:00:00"
  }

  /** Upper bound of the day's query on `check_in_time`. */
  function DayEnd(day: string): string {
    day + "T23:59:59"
  }

  /**
   * `gte(check_in_time, day T00:00:00).lte(check_in_time, day T23:59:59)`, the timestamps
   * compared as text.
   */
  function TodayCheckins(rows: seq<CheckIn>, day: string): seq<CheckIn> {
    Seqs.Filter(rows, (c: CheckIn) => TextLe(DayStart(day), c.checkInTime) && TextLe(c.checkInTime, DayEnd(day)))
  }

  class CheckInsHook {
    /** The hook's copy of today's check-ins. */
    var checkins: seq<CheckIn>
    const store: Store

    constructor (store: Store)
      ensures this.store == store && checkins == []
    {
      this.store := store;
      checkins := [];
    }

    /** `fetchTodayCheckins`: today's rows replace the copy; a failed read keeps it. */
    method FetchTodayCheckins(today: Date, ok: bool)
      requires Valid(today)
      modifies this`checkins
      ensures checkins == if ok then TodayCheckins(store.checkins, TodayLocal(today)) else old(checkins)
    {
      if ok {
        checkins := TodayCheckins(store.checkins, TodayLocal(today));
      }
    }

    /**
     * `checkInMember`. Only a member that was found is checked in: the visit is inserted when
     * the store accepts it (a rejected insert is logged and ignored), then today's list is
     * re-read; every other outcome changes nothing.
     */
    method CheckInMember(dni: string, today: Date, now: string, searchOk: bool, insertOk: bool,
                         fetchOk: bool) returns (r: Option<CheckInResult>)
      requires Valid(today)
      modifies this`checkins, store`checkins
      ensures r == CheckInOutcome(store.members, dni, today, searchOk)
      ensures store.checkins == if r.Some? && insertOk then [CheckInRecord(r.value, now)] + old(store.checkins)
                                else old(store.checkins)
      ensures checkins == if r.Some? && fetchOk then TodayCheckins(store.checkins, TodayLocal(today))
                          else old(checkins)
    {
      r := CheckInOutcome(store.members, dni, today, searchOk);
      if r.None? {
        return;
      }
      if insertOk {
        store.InsertCheckIn(CheckInRecord(r.value, now));
      }
      FetchTodayCheckins(today, fetchOk);
    }
  }

  // ---------------------------------------------------------------------------------------------
  // Properties

  /**
   * A check-in fails exactly for a blank dni, a failed search, or a trimmed dni no row has;
   * otherwise it is the first row with that dni, as the `find` of the members hook sees it.
   */
  lemma CheckInFindsFirstRow(rows: seq<Member>, dni: string, today: Date, searchOk: bool)
    requires Valid(today)
    ensures CheckInOutcome(rows, dni, today, searchOk).None? <==>
      IsBlank(dni) || !searchOk || forall j :: 0 <= j < |rows| ==> rows[j].dni != Trim(dni)
    ensures CheckInOutcome(rows, dni, today, searchOk).Some? ==>
      Some(CheckInOutcome(rows, dni, today, searchOk).value.member) == FirstWithDni(rows, Trim(dni))
  {
    FirstOfQueryIsFirstMatch(rows, Trim(dni));
  }

  /** Surrounding white space does not change who is checked in. */
  lemma PaddingIsIgnored(rows: seq<Member>, a: string, b: string, today: Date, searchOk: bool)
    requires Valid(today) && Trim(a) == Trim(b)
    ensures CheckInOutcome(rows, a, today, searchOk) == CheckInOutcome(rows, b, today, searchOk)
  {
  }

  /** A dni typed with surrounding spaces finds the same member as the bare dni. */
  lemma TrimmedDniIsLookedUp(rows: seq<Member>, dni: string, today: Date, searchOk: bool)
    requires Valid(today)
    ensures CheckInOutcome(rows, dni, today, searchOk) == CheckInOutcome(rows, Trim(dni), today, searchOk)
  {
    TrimIdempotent(dni);
  }

  /**
   * The result's bucket is the classification of the member's days to expiry, and the text
   * shown is the text of that bucket.
   */
  lemma ResultFollowsDays(rows: seq<Member>, dni: string, today: Date, searchOk: bool)
    requires Valid(today)
    requires CheckInOutcome(rows, dni, today, searchOk).Some?
    ensures var r := CheckInOutcome(rows, dni, today, searchOk).value;
      r.daysUntilExpiry == DaysUntilExpiry(today, r.member.expiryDate)
      && (r.status == Expired <==> r.daysUntilExpiry.Some? && r.daysUntilExpiry.value < 0)
      && (r.status == ExpiresSoon <==> r.daysUntilExpiry.Some? && 0 <= r.daysUntilExpiry.value <= 7)
      && r.statusText == StatusText(r.status)
  {
  }

  /**
   * For a member whose expiry is a well-formed date, the check-in reports the membership
   * expired exactly when that date lies before today, and the members table's badge agrees.
   */
  lemma ExpiredExactlyWhenPast(rows: seq<Member>, dni: string, today: Date, searchOk: bool, e: Date)
    requires Valid(today) && today.year >= 100
    requires CheckInOutcome(rows, dni, today, searchOk).Some?
    requires ParseIso(CheckInOutcome(rows, dni, today, searchOk).value.member.expiryDate) == Some(e)
    requires e.year >= 100
    ensures var r := CheckInOutcome(rows, dni, today, searchOk).value;
      (r.status == Expired <==> Before(e, today))
      && (StatusInfoOf(r.daysUntilExpiry).text == "Vencida" <==> r.statusText == "Vencida")
  {
    var r := CheckInOutcome(rows, dni, today, searchOk).value;
    DaysUntilIsDistance(today, r.member.expiryDate, e);
    StatusInfoAgrees(r.daysUntilExpiry);
    StatusCodeInjective(r.status, Expired);
  }

  /** The stored visit carries the same status text the panel shows. */
  lemma RecordKeepsShownStatus(rows: seq<Member>, dni: string, today: Date, searchOk: bool, now: string)
    requires Valid(today)
    requires CheckInOutcome(rows, dni, today, searchOk).Some?
    ensures var r := CheckInOutcome(rows, dni, today, searchOk).value;
      CheckInRecord(r, now).membershipStatus == StatusText(Classify(DaysUntilExpiry(today, r.member.expiryDate)))
      && CheckInRecord(r, now).memberDni == Trim(dni)
  {
  }

  /** Text order is decided after a common prefix. */
  lemma {:induction false} TextLeAfterPrefix(p: string, a: string, b: string)
    ensures TextLe(p + a, p + b) <==> TextLe(a, b)
  {
    if p == [] {
      assert p + a == a && p + b == b;
    } else {
      assert (p + a)[1..] == p[1..] + a;
      assert (p + b)[1..] == p[1..] + b;
      TextLeAfterPrefix(p[1..], a, b);
    }
  }

  /**
   * A check-in stamped on `day` at a time of day between 00:00:00 and 23:59:59 (as text) is in
   * that day's list.
   */
  lemma StampedTodayIsListed(c: CheckIn, rows: seq<CheckIn>, day: string, clock: string)
    requires c in rows && c.checkInTime == day + "T" + clock
    requires TextLe("00:00:00", clock) && TextLe(clock, "23:59:59")
    ensures c in TodayCheckins(rows, day)
  {
    assert DayStart(day) == (day + "T") + "00:00:00";
    assert DayEnd(day) == (day + "T") + "23:59:59";
    TextLeAfterPrefix(day + "T", "00:00:00", clock);
    TextLeAfterPrefix(day + "T", clock, "23:59:59");
  }

  /** Every listed check-in is a stored one stamped between the day's bounds. */
  lemma TodayCheckinsExactly(rows: seq<CheckIn>, day: string)
    ensures forall c :: c in TodayCheckins(rows, day) <==>
      c in rows && TextLe(DayStart(day), c.checkInTime) && TextLe(c.checkInTime, DayEnd(day))
  {
  }

  /**
   * The last second of the day is cut off: a stamp with milliseconds after 23:59:59, as
   * `toISOString` writes it, lies above the upper bound.
   */
  lemma LastSecondFractionExcluded(day: string)
    ensures !TextLe(day + "T23:59:59.500Z", DayEnd(day))
  {
    assert day + "T23:59:59.500Z" == DayEnd(day) + ".500Z";
    TextLeAfterPrefix(DayEnd(day), ".500Z", "");
    assert DayEnd(day) + "" == DayEnd(day);
  }
}
