/**
 * Membership status: the days left until the expiry date, and the three buckets the check-in
 * hook, the members table and the check-in panel derive from it. A day count of `None` is
 * JavaScript's NaN (an expiry text that is not a date): every comparison with it is false, so
 * each copy of the rule falls through to "active".
 */
module Status {
  import opened Wrappers
  import opened Text
  import opened Calendar
  import opened DateText

  datatype MembershipStatus = Active | ExpiresSoon | Expired

  /**
   * `differenceInDays(createLocalDate(expiry), createLocalDate(getTodayLocal()))`: whole
   * calendar days from today to the expiry date.
   */
  function DaysUntilExpiry(today: Date, expiry: string): Option<int>
    requires Valid(today)
  {
    match (CreateLocalDate(TodayLocal(today)), CreateLocalDate(expiry))
    case (Some(t), Some(e)) => Some(DifferenceInDays(e, t))
    case _ => None
  }

  /** The bucketing of `checkInMember`: negative is expired, 0 to 7 expires soon, else active. */
  function Classify(days: Option<int>): (s: MembershipStatus)
    ensures s == Expired <==> days.Some? && days.value < 0
    ensures s == ExpiresSoon <==> days.Some? && 0 <= days.value <= 7
    ensures s == Active <==> days.None? || days.value > 7
  {
    if days.Some? && days.value < 0 then Expired
    else if days.Some? && days.value <= 7 then ExpiresSoon
    else Active
  }

  /** The `status` code the check-in result carries. */
  function StatusCode(s: MembershipStatus): string {
    match s
    case Active => "active"
    case ExpiresSoon => "expires-soon"
    case Expired => "expired"
  }

  /** The `statusText` stored with a check-in and shown in the check-in panel. */
  function StatusText(s: MembershipStatus): string {
    match s
    case Active => "Activa"
    case ExpiresSoon => "Por vencer"
    case Expired => "Vencida"
  }

  /** The badge of the members table. */
  datatype StatusInfo = StatusInfo(className: string, text: string)

  /** `getStatusInfo` in the members table, on the day count. */
  function StatusInfoOf(days: Option<int>): StatusInfo {
    if days.Some? && days.value < 0 then StatusInfo("bg-red-100 text-red-800", "Vencida")
    else if days.Some? && days.value <= 7 then
      StatusInfo("bg-yellow-100 text-yellow-800", "Vence en " + IntToDecimal(days.value) + " días")
    else StatusInfo("bg-green-100 text-green-800", "Activa")
  }

  /** `getStatusClass` in the check-in panel, on the status code. */
  function StatusClass(code: string): string {
    if code == "expired" then "bg-red-50 border-red-200 text-red-800"
    else if code == "expires-soon" then "bg-yellow-50 border-yellow-200 text-yellow-800"
    else "bg-green-50 border-green-200 text-green-800"
  }

  // ---------------------------------------------------------------------------------------------
  // Properties

  /** The three codes are distinct, so a code tells its bucket back. */
  lemma StatusCodeInjective(a: MembershipStatus, b: MembershipStatus)
    ensures StatusCode(a) == StatusCode(b) <==> a == b
    ensures StatusText(a) == StatusText(b) <==> a == b
  {
  }

  /** The members-table badge and the check-in classification use the same thresholds. */
  lemma StatusInfoAgrees(days: Option<int>)
    ensures StatusInfoOf(days).text == "Vencida" <==> Classify(days) == Expired
    ensures StatusInfoOf(days).text == "Activa" <==> Classify(days) == Active
    ensures Classify(days) == ExpiresSoon ==>
      StatusInfoOf(days).text == "Vence en " + IntToDecimal(days.value) + " días"
  {
    var t := StatusInfoOf(days).text;
    if Classify(days) == ExpiresSoon {
      assert t[..9] == "Vence en ";
    }
  }

  /** The panel colours follow the bucket; any unknown code is shown green. */
  lemma StatusClassByBucket(code: string)
    ensures StatusClass(StatusCode(Expired)) == "bg-red-50 border-red-200 text-red-800"
    ensures StatusClass(StatusCode(ExpiresSoon)) == "bg-yellow-50 border-yellow-200 text-yellow-800"
    ensures StatusClass(StatusCode(Active)) == "bg-green-50 border-green-200 text-green-800"
    ensures code != "expired" && code != "expires-soon" ==> StatusClass(code) == StatusClass("active")
  {
  }

  /** The boundaries: 8 days is active, 7 and 0 expire soon, -1 has expired. */
  lemma Boundaries()
    ensures Classify(Some(8)) == Active && Classify(Some(7)) == ExpiresSoon
    ensures Classify(Some(0)) == ExpiresSoon && Classify(Some(-1)) == Expired
    ensures Classify(None) == Active
  {
  }

  /** More days left never gives a worse bucket. */
  lemma ClassifyMonotone(a: int, b: int)
    requires a <= b
    ensures Classify(Some(b)) == Expired ==> Classify(Some(a)) == Expired
    ensures Classify(Some(a)) == Active ==> Classify(Some(b)) == Active
  {
  }

  /**
   * For a well-formed expiry date, the day count is the calendar distance from today; the
   * membership has expired exactly when the expiry date lies before today.
   */
  lemma DaysUntilIsDistance(today: Date, expiry: string, e: Date)
    requires Valid(today) && today.year >= 100
    requires ParseIso(expiry) == Some(e) && e.year >= 100
    ensures DaysUntilExpiry(today, expiry) == Some(DifferenceInDays(e, today))
    ensures Classify(DaysUntilExpiry(today, expiry)) == Expired <==> Before(e, today)
  {
    CreateLocalDateOfTodayLocal(today);
    IsoIsLocalDate(expiry, e);
    DifferencePositiveIffBefore(e, today);
  }
}
