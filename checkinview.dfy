/**
 * The check-in tab: the dni box, the result card with its five-second auto-hide countdown,
 * dismissing the card, and renewing an expired membership from it.
 */
module CheckInView {
  import opened Wrappers
  import opened Text
  import opened Calendar
  import opened DateText
  import opened Records
  import opened Plans
  import opened Status
  import opened TableStore
  import opened Registry
  import opened CheckIns

  /** The seconds a result stays on screen. */
  const HideAfter: nat := 5

  /** The result card and its countdown; no countdown means the card is not hiding by itself. */
  datatype Panel = Panel(result: Option<CheckInResult>, countdown: Option<int>)

  /**
   * A new result on screen: the effect on `memberResult` starts the countdown at five for a
   * result and clears it for none.
   */
  function ShowResult(r: Option<CheckInResult>): (p: Panel)
    ensures p.result == r
    ensures p.countdown.Some? <==> r.Some?
    ensures p.countdown.Some? ==> p.countdown.value == HideAfter
  {
    Panel(r, if r.Some? then Some(HideAfter as int) else None)
  }

  /** One interval tick: no countdown stays so; at one or below the card hides; else count down. */
  function Tick(p: Panel): Panel {
    match p.countdown
    case None => p
    case Some(n) => if n <= 1 then Panel(None, None) else Panel(p.result, Some(n - 1))
  }

  /** `handleDismissResult`. */
  function Dismiss(p: Panel): (q: Panel)
    ensures q.result.None? && q.countdown.None?
  {
    Panel(None, None)
  }

  function Ticks(p: Panel, n: nat): Panel
    decreases n
  {
    if n == 0 then p else Ticks(Tick(p), n - 1)
  }

  /** A running countdown belongs to a shown result and lies between one and five. */
  predicate Consistent(p: Panel) {
    p.countdown.Some? ==> p.result.Some? && 1 <= p.countdown.value <= HideAfter
  }

  /** The renew button is offered for the 'expired' status code only. */
  predicate OffersRenewal(r: CheckInResult) {
    StatusCode(r.status) == "expired"
  }

  /** "(N días restantes)" is shown when the day count is at least zero (never for NaN). */
  predicate ShowsDaysLeft(r: CheckInResult) {
    r.daysUntilExpiry.Some? && r.daysUntilExpiry.value >= 0
  }

  class CheckInPanel {
    var dni: string
    var memberResult: Option<CheckInResult>
    var countdown: Option<int>
    const checkIns: CheckInsHook
    const members: MembersHook

    constructor (checkIns: CheckInsHook, members: MembersHook)
      ensures this.checkIns == checkIns && this.members == members
      ensures dni == "" && memberResult == None && countdown == None
    {
      this.checkIns, this.members := checkIns, members;
      dni, memberResult, countdown := "", None, None;
    }

    function State(): Panel
      reads this
    {
      Panel(memberResult, countdown)
    }

    /** The interval's tick. */
    method TimerTick()
      modifies this`memberResult, this`countdown
      ensures State() == Tick(old(State()))
    {
      match countdown
      case None =>
      case Some(n) =>
        if n <= 1 {
          memberResult, countdown := None, None;
        } else {
          countdown := Some(n - 1);
        }
    }

    method DismissResult()
      modifies this`memberResult, this`countdown
      ensures State() == Dismiss(old(State()))
    {
      memberResult, countdown := None, None;
    }

    /**
     * `handleSearch`: a blank box does nothing; otherwise the dni is checked in, its result
     * (or none) is shown with a fresh countdown, and the box is emptied.
     */
    method Search(today: Date, now: string, searchOk: bool, insertOk: bool, fetchOk: bool)
      requires Valid(today)
      modifies this`dni, this`memberResult, this`countdown, checkIns`checkins, checkIns.store`checkins
      ensures IsBlank(old(dni)) ==> dni == old(dni) && State() == old(State())
                                    && checkIns.store.checkins == old(checkIns.store.checkins)
                                    && checkIns.checkins == old(checkIns.checkins)
      ensures !IsBlank(old(dni)) ==>
        dni == "" && State() == ShowResult(CheckInOutcome(checkIns.store.members, old(dni), today, searchOk))
      ensures !IsBlank(old(dni)) ==>
        var r := CheckInOutcome(checkIns.store.members, old(dni), today, searchOk);
        checkIns.store.checkins == (if r.Some? && insertOk then [CheckInRecord(r.value, now)] + old(checkIns.store.checkins)
                                    else old(checkIns.store.checkins))
        && checkIns.checkins == (if r.Some? && fetchOk then TodayCheckins(checkIns.store.checkins, TodayLocal(today))
                                 else old(checkIns.checkins))
    {
      if IsBlank(dni) {
        return;
      }
      countdown := None;
      var r := checkIns.CheckInMember(dni, today, now, searchOk, insertOk, fetchOk);
      var p := ShowResult(r);
      memberResult, countdown := p.result, p.countdown;
      dni := "";
    }

    /**
     * `handleRenewFromCheckin`: pause the countdown, renew the membership, then check the
     * member in again and show the new result with a fresh countdown. `renewDay` is the
     * 'yyyy-MM-dd' text of the clock read by `renewMembership` itself; `membersFetchOk` is the
     * outcome of its re-read of the members, `fetchOk` that of the check-ins.
     */
    method RenewFromCheckIn(memberDni: string, today: Date, renewDay: string, now: string, writeOk: bool,
                            ledgerOk: bool, membersFetchOk: bool, searchOk: bool, insertOk: bool, fetchOk: bool)
      requires Valid(today) && members.store.Valid() && checkIns.store == members.store
      modifies this`memberResult, this`countdown, members`members, members.store, checkIns`checkins
      ensures members.store.Valid()
      ensures var p := if writeOk then RenewalPlan(members.plans, old(members.members), memberDni, renewDay) else None;
        members.store.members == (if p.Some? then RenewRows(old(members.store.members), memberDni, p.value.start, p.value.expiry)
                                  else old(members.store.members))
        && members.store.transactions ==
             (if p.Some? && ledgerOk
              then [TxRow(old(members.store.nextId), RenewalIncome(members.plans, p.value.member, p.value.start, now))]
                   + old(members.store.transactions)
              else old(members.store.transactions))
      ensures var p := if writeOk then RenewalPlan(members.plans, old(members.members), memberDni, renewDay) else None;
        members.members == (if p.Some? && membersFetchOk then members.store.members else old(members.members))
      ensures var r := CheckInOutcome(members.store.members, memberDni, today, searchOk);
        members.store.checkins == (if r.Some? && insertOk then [CheckInRecord(r.value, now)] + old(members.store.checkins)
                                   else old(members.store.checkins))
        && checkIns.checkins == (if r.Some? && fetchOk then TodayCheckins(members.store.checkins, TodayLocal(today))
                                 else old(checkIns.checkins))
      ensures State() == ShowResult(CheckInOutcome(members.store.members, memberDni, today, searchOk))
    {
      countdown := None;
      var _ := members.RenewMembership(memberDni, renewDay, now, writeOk, ledgerOk, membersFetchOk);
      var r := checkIns.CheckInMember(memberDni, today, now, searchOk, insertOk, fetchOk);
      var p := ShowResult(r);
      memberResult, countdown := p.result, p.countdown;
    }
  }

  // ---------------------------------------------------------------------------------------------
  // Properties

  /** A countdown at `n` keeps the result for `n - 1` ticks and hides it at the `n`-th. */
  lemma {:induction false} CountdownHidesAtZero(r: CheckInResult, n: int, k: nat)
    requires n >= 1
    ensures k < n ==> Ticks(Panel(Some(r), Some(n)), k) == Panel(Some(r), Some(n - k))
    ensures k >= n ==> Ticks(Panel(Some(r), Some(n)), k) == Panel(None, None)
  {
    if k > 0 {
      if n == 1 {
        HiddenStaysHidden(k - 1);
      } else {
        CountdownHidesAtZero(r, n - 1, k - 1);
      }
    }
  }

  lemma {:induction false} HiddenStaysHidden(k: nat)
    ensures Ticks(Panel(None, None), k) == Panel(None, None)
  {
    if k > 0 {
      HiddenStaysHidden(k - 1);
    }
  }

  /** An undisturbed result is on screen for four ticks and gone after the fifth. */
  lemma HidesAfterFiveTicks(r: CheckInResult)
    ensures forall k: nat :: k < HideAfter ==> Ticks(ShowResult(Some(r)), k).result == Some(r)
    ensures Ticks(ShowResult(Some(r)), HideAfter) == Panel(None, None)
  {
    forall k: nat | k < HideAfter
      ensures Ticks(ShowResult(Some(r)), k).result == Some(r)
    {
      CountdownHidesAtZero(r, HideAfter, k);
    }
    CountdownHidesAtZero(r, HideAfter, HideAfter);
  }

  /** A paused card (a result without a countdown) stays on screen however long it ticks. */
  lemma {:induction false} PausedStaysShown(r: CheckInResult, k: nat)
    ensures Ticks(Panel(Some(r), None), k) == Panel(Some(r), None)
  {
    if k > 0 {
      PausedStaysShown(r, k - 1);
    }
  }

  /** Every event keeps a running countdown attached to a result and within one to five. */
  lemma EventsKeepConsistent(p: Panel, r: Option<CheckInResult>)
    requires Consistent(p)
    ensures Consistent(Tick(p)) && Consistent(Dismiss(p)) && Consistent(ShowResult(r))
    ensures Consistent(Panel(p.result, None))
  {
  }

  /**
   * The card's options follow the bucket: renewal is offered exactly for an expired
   * membership, which never shows days left; a membership about to expire shows 0 to 7.
   */
  lemma CardOptions(r: CheckInResult)
    requires r.status == Classify(r.daysUntilExpiry)
    ensures OffersRenewal(r) <==> r.status == Expired
    ensures OffersRenewal(r) ==> !ShowsDaysLeft(r)
    ensures r.status == ExpiresSoon ==> ShowsDaysLeft(r) && r.daysUntilExpiry.value <= 7
    ensures StatusClass(StatusCode(r.status)) == "bg-red-50 border-red-200 text-red-800" <==> r.status == Expired
  {
    StatusCodeInjective(r.status, Expired);
    StatusClassByBucket(StatusCode(r.status));
  }

  /**
   * Renewing from the card and checking in again reports the plan's full duration as the days
   * left: every stored row of the member carries the new expiry, so the first one found does.
   */
  lemma RenewedCheckInShowsPlanDays(plans: seq<Plan>, copy: seq<Member>, rows: seq<Member>, dni: string,
                                    start: string, today: Date, m: Member, k: nat)
    requires Valid(today) && 1000 <= today.year && ParseIso(start) == Some(today)
    requires FirstWithDni(copy, dni) == Some(m)
    requires 1000 <= AddDays(today, ExpiryOffset(plans, m.membershipType)).year <= 9999
    requires !IsBlank(dni) && Trim(dni) == dni && k < |rows| && rows[k].dni == dni
    ensures RenewalPlan(plans, copy, dni, start).Some?
    ensures var p := RenewalPlan(plans, copy, dni, start).value;
      var r := CheckInOutcome(RenewRows(rows, dni, p.start, p.expiry), dni, today, true);
      r.Some? && r.value.daysUntilExpiry == Some(ExpiryOffset(plans, m.membershipType))
      && r.value.status == Classify(Some(ExpiryOffset(plans, m.membershipType)))
  {
    RenewalFromToday(plans, copy, dni, start, today, m);
    var p := RenewalPlan(plans, copy, dni, start).value;
    CheckInAfterRenewal(rows, dni, today, p.start, p.expiry, ExpiryOffset(plans, m.membershipType), k);
  }

  /** Once the rows with the dni expire `offset` days from today, the check-in reports those days. */
  lemma CheckInAfterRenewal(rows: seq<Member>, dni: string, today: Date, start: string, expiry: string,
                            offset: int, k: nat)
    requires Valid(today) && 1000 <= today.year && 1000 <= AddDays(today, offset).year
    requires ParseIso(expiry) == Some(AddDays(today, offset))
    requires !IsBlank(dni) && Trim(dni) == dni && k < |rows| && rows[k].dni == dni
    ensures var r := CheckInOutcome(RenewRows(rows, dni, start, expiry), dni, today, true);
      r.Some? && r.value.daysUntilExpiry == Some(offset) && r.value.status == Classify(Some(offset))
  {
    var renewed := RenewRows(rows, dni, start, expiry);
    RenewedRowsCarryExpiry(rows, dni, start, expiry, k);
    CheckInOfOffset(renewed, dni, today, offset);
  }

  /** A member whose first row expires `offset` days from today is checked in with those days. */
  lemma CheckInOfOffset(rows: seq<Member>, dni: string, today: Date, offset: int)
    requires Valid(today) && 1000 <= today.year && 1000 <= AddDays(today, offset).year
    requires !IsBlank(dni) && Trim(dni) == dni
    requires RowsWithDni(rows, dni) != [] && ParseIso(RowsWithDni(rows, dni)[0].expiryDate) == Some(AddDays(today, offset))
    ensures var r := CheckInOutcome(rows, dni, today, true);
      r.Some? && r.value.daysUntilExpiry == Some(offset) && r.value.status == Classify(Some(offset))
  {
    var e := AddDays(today, offset);
    var m := RowsWithDni(rows, dni)[0];
    OutcomeOfFirstRow(rows, dni, today);
    DaysUntilIsDistance(today, m.expiryDate, e);
    assert DifferenceInDays(e, today) == offset;
  }

  /** A non-blank, unpadded dni with a row is checked in on its first row, by that row's days. */
  lemma OutcomeOfFirstRow(rows: seq<Member>, dni: string, today: Date)
    requires Valid(today) && !IsBlank(dni) && Trim(dni) == dni && RowsWithDni(rows, dni) != []
    ensures var days := DaysUntilExpiry(today, RowsWithDni(rows, dni)[0].expiryDate);
      CheckInOutcome(rows, dni, today, true)
      == Some(CheckInResult(RowsWithDni(rows, dni)[0], Classify(days), StatusText(Classify(days)), days))
  {
  }

  /** After the update, the first row with the dni carries the new expiry. */
  lemma RenewedRowsCarryExpiry(rows: seq<Member>, dni: string, start: string, expiry: string, k: nat)
    requires k < |rows| && rows[k].dni == dni
    ensures RowsWithDni(RenewRows(rows, dni, start, expiry), dni) != []
    ensures RowsWithDni(RenewRows(rows, dni, start, expiry), dni)[0].expiryDate == expiry
  {
    var renewed := RenewRows(rows, dni, start, expiry);
    assert renewed[k].dni == dni;
    var first := RowsWithDni(renewed, dni)[0];
    var j :| 0 <= j < |renewed| && renewed[j] == first;
  }

  /** The check-in of a member whose first row expires on `e` counts the days from today to `e`. */
  lemma CheckInOfExpiry(rows: seq<Member>, dni: string, today: Date, e: Date)
    requires Valid(today) && 100 <= today.year && !IsBlank(dni) && Trim(dni) == dni
    requires RowsWithDni(rows, dni) != [] && ParseIso(RowsWithDni(rows, dni)[0].expiryDate) == Some(e)
    requires e.year >= 100
    ensures CheckInOutcome(rows, dni, today, true).Some?
    ensures CheckInOutcome(rows, dni, today, true).value.daysUntilExpiry == Some(DifferenceInDays(e, today))
  {
    DaysUntilIsDistance(today, RowsWithDni(rows, dni)[0].expiryDate, e);
  }
}
