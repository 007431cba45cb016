/**
 * Plan resolution in the members hook: the membership types loaded from the admin table (or the
 * four built-in defaults), the mapping of any plan key to one of the four keys the members table
 * accepts, the expiry date of a membership and its price.
 */
module Plans {
  import opened Wrappers
  import opened Text
  import opened Calendar
  import opened DateText
  import opened Seqs
  import opened Records

  /** A row of the admin `membership_types` table, as far as plan resolution reads it. */
  datatype PlanRow = PlanRow(id: string, name: string, durationDays: int, price: int)

  /**
   * A membership type as the hook keeps it. The built-in defaults have no `originalId` and no
   * `compatibleId` (both undefined); a loaded row keeps its id in `originalId` and gets the
   * legacy key its name maps to in `compatibleId`.
   */
  datatype Plan = Plan(
    id: string,
    name: string,
    durationDays: int,
    price: int,
    originalId: Option<string>,
    compatibleId: Option<string>)

  /** The defaults used when the admin table cannot be read. */
  const DefaultPlans: seq<Plan> := [
    Plan("mensual", "Mensual", 30, 15000, None, None),
    Plan("trimestral", "Trimestral", 90, 40000, None, None),
    Plan("semestral", "Semestral", 180, 75000, None, None),
    Plan("anual", "Anual", 365, 140000, None, None)
  ]

  /** The `nameToId` table on the lower-cased plan name, with 'mensual' for any other name. */
  function CompatibleIdForName(name: string): (k: string)
    ensures IsLegacyKey(k)
  {
    KeyOfLowerName(ToLower(name))
  }

  /** The suffix of the names of the plans with a trainer. */
  const WithTrainer: string := " + entrenador"

  /** The `nameToId` lookup itself, on a name already lower-cased. */
  function KeyOfLowerName(n: string): (k: string)
    ensures IsLegacyKey(k)
  {
    if n == "mensual" || n == "mensual" + WithTrainer then "mensual"
    else if n == "trimestral" || n == "trimestral" + WithTrainer then "trimestral"
    else if n == "semestral" || n == "semestral" + WithTrainer then "semestral"
    else if n == "anual" || n == "anual" + WithTrainer then "anual"
    else "mensual"
  }

  function ToPlan(row: PlanRow): Plan {
    Plan(row.id, row.name, row.durationDays, row.price, Some(row.id), Some(CompatibleIdForName(row.name)))
  }

  /**
   * `loadMembershipTypes`: the active rows of the admin table, each given its compatible key,
   * or the defaults when the table could not be read (`None`).
   */
  function LoadedPlans(response: Option<seq<PlanRow>>): (plans: seq<Plan>)
    ensures response.None? ==> plans == DefaultPlans
    ensures response.Some? ==> |plans| == |response.value|
  {
    match response
    case None => DefaultPlans
    case Some(rows) => seq(|rows|, i requires 0 <= i < |rows| => ToPlan(rows[i]))
  }

  /** Every compatible key the hook holds is one of the four legacy keys. */
  predicate WellFormedPlans(plans: seq<Plan>) {
    forall i :: 0 <= i < |plans| ==> plans[i].compatibleId.None? || IsLegacyKey(plans[i].compatibleId.value)
  }

  /** JavaScript truthiness of an optional string: present and not empty. */
  predicate Truthy(o: Option<string>) {
    o.Some? && o.value != ""
  }

  /** The test of the first lookup in `mapToCompatibleMembershipType`. */
  predicate MatchesId(p: Plan, key: string) {
    p.originalId == Some(key) || p.id == key
  }

  /** The test shared by `calculateExpiryDate` and `getMembershipPrice`. */
  predicate MatchesKey(p: Plan, key: string) {
    p.id == key || p.originalId == Some(key) || p.compatibleId == Some(key)
  }

  /** The plan `calculateExpiryDate` and `getMembershipPrice` use: the first one matching `key`. */
  function FindPlan(plans: seq<Plan>, key: string): Option<nat> {
    FindIndex(plans, p => MatchesKey(p, key))
  }

  /**
   * `mapToCompatibleMembershipType`: a legacy key in any case comes back lower-cased; otherwise
   * the compatible key of the first plan with that id, then of the first plan whose lower-cased
   * name contains the lower-cased key, and 'mensual' when neither has one.
   */
  function MapToCompatible(plans: seq<Plan>, key: string): string {
    var low := ToLower(key);
    if IsLegacyKey(low) then low
    else
      var byId := FindIndex(plans, p => MatchesId(p, key));
      if byId.Some? && Truthy(plans[byId.value].compatibleId) then plans[byId.value].compatibleId.value
      else
        var byName := FindIndex(plans, (p: Plan) => Contains(ToLower(p.name), low));
        if byName.Some? && Truthy(plans[byName.value].compatibleId) then plans[byName.value].compatibleId.value
        else "mensual"
  }

  /** The default day counts for the legacy keys, 30 for anything else. */
  function DefaultDuration(k: string): (days: int)
    ensures days in {30, 90, 180, 365}
    ensures !IsLegacyKey(k) ==> days == 30
  {
    if k == "mensual" then 30
    else if k == "trimestral" then 90
    else if k == "semestral" then 180
    else if k == "anual" then 365
    else 30
  }

  /** The number of days `calculateExpiryDate` adds for `key`. */
  function ExpiryOffset(plans: seq<Plan>, key: string): int {
    match FindPlan(plans, key)
    case Some(i) => plans[i].durationDays
    case None => DefaultDuration(MapToCompatible(plans, key))
  }

  /**
   * `calculateExpiryDate`: the start date read by `parseISO`, plus the plan's days, formatted
   * `yyyy-MM-dd`. `None` is the exception that escapes when the start is not a date (the
   * fallback path parses the same text and fails the same way).
   */
  function CalculateExpiryDate(plans: seq<Plan>, start: string, key: string): (r: Option<string>)
    ensures r.Some? <==> ParseIso(start).Some?
  {
    match ParseIso(start)
    case None => None
    case Some(d) => Some(FormatYmd(AddDays(d, ExpiryOffset(plans, key))))
  }

  /** `getMembershipPrice`: the first matching plan's price, else the default price of the mapped key. */
  function MembershipPrice(plans: seq<Plan>, key: string): int {
    match FindPlan(plans, key)
    case Some(i) => plans[i].price
    case None => DefaultPrice(MapToCompatible(plans, key))
  }

  /** The plan name in the concept of a new member's income: by id, else the key itself. */
  function SaveConceptName(plans: seq<Plan>, key: string): string {
    var i := FindIndex(plans, p => MatchesId(p, key));
    if i.Some? && plans[i.value].name != "" then plans[i.value].name else key
  }

  /** The plan name in the concept of a renewal's income: by compatible key, else the key. */
  function RenewConceptName(plans: seq<Plan>, key: string): string {
    var i := FindIndex(plans, (p: Plan) => p.compatibleId == Some(key));
    if i.Some? && plans[i.value].name != "" then plans[i.value].name else key
  }

  // ---------------------------------------------------------------------------------------------
  // Properties

  lemma LegacyKeysAreLowerCase(k: string)
    requires IsLegacyKey(k)
    ensures ToLower(k) == k
  {
    LowerOfLowercase(k);
  }

  lemma DefaultPlansWellFormed()
    ensures WellFormedPlans(DefaultPlans)
  {
  }

  /** Loaded plans keep their ids and get the compatible key of their name, so they are well formed. */
  lemma LoadedPlansWellFormed(response: Option<seq<PlanRow>>)
    ensures WellFormedPlans(LoadedPlans(response))
    ensures response.Some? ==> forall i :: 0 <= i < |response.value| ==>
      LoadedPlans(response)[i].originalId == Some(response.value[i].id) &&
      LoadedPlans(response)[i].compatibleId == Some(CompatibleIdForName(response.value[i].name))
  {
  }

  /** "X" and "X + entrenador", in any case, map to the legacy key X. */
  lemma PlanNameMapsToItsKey(name: string, k: string)
    requires IsLegacyKey(k)
    requires ToLower(name) == k || ToLower(name) == k + WithTrainer
    ensures CompatibleIdForName(name) == k
  {
    LowerNameMapsToItsKey(ToLower(name), k);
  }

  lemma LowerNameMapsToItsKey(n: string, k: string)
    requires IsLegacyKey(k)
    requires n == k || n == k + WithTrainer
    ensures KeyOfLowerName(n) == k
  {
    assert k == LegacyKeys[0] || k == LegacyKeys[1] || k == LegacyKeys[2] || k == LegacyKeys[3];
  }

  /** Every other name maps to 'mensual'. */
  lemma OtherPlanNameMapsToMensual(name: string)
    requires forall k :: IsLegacyKey(k) ==> ToLower(name) != k && ToLower(name) != k + WithTrainer
    ensures CompatibleIdForName(name) == "mensual"
  {
    assert IsLegacyKey("mensual") && IsLegacyKey("trimestral") && IsLegacyKey("semestral") && IsLegacyKey("anual");
  }

  /** Over well-formed plans the mapping always lands on one of the four legacy keys. */
  lemma MapToCompatibleIsLegacy(plans: seq<Plan>, key: string)
    requires WellFormedPlans(plans)
    ensures IsLegacyKey(MapToCompatible(plans, key))
  {
  }

  /** A legacy key in any case is lower-cased and nothing else. */
  lemma MapToCompatibleOfLegacy(plans: seq<Plan>, key: string)
    requires IsLegacyKey(ToLower(key))
    ensures MapToCompatible(plans, key) == ToLower(key)
  {
  }

  /** Mapping a mapped key again changes nothing. */
  lemma MapToCompatibleIdempotent(plans: seq<Plan>, key: string)
    requires WellFormedPlans(plans)
    ensures MapToCompatible(plans, MapToCompatible(plans, key)) == MapToCompatible(plans, key)
  {
    var k := MapToCompatible(plans, key);
    MapToCompatibleIsLegacy(plans, key);
    LegacyKeysAreLowerCase(k);
  }

  /** The default plan list and the two fallback tables agree: any key gets the same days either way. */
  lemma DefaultPlansAgreeWithFallbacks(key: string)
    ensures ExpiryOffset(DefaultPlans, key) == DefaultDuration(MapToCompatible(DefaultPlans, key))
    ensures MembershipPrice(DefaultPlans, key) == DefaultPrice(MapToCompatible(DefaultPlans, key))
  {
    match FindPlan(DefaultPlans, key)
    case None =>
    case Some(i) =>
      assert DefaultPlans[i].id == key;
      assert IsLegacyKey(key);
      LegacyKeysAreLowerCase(key);
  }

  /**
   * The expiry is the start plus exactly the offset in calendar days, and the offset is the
   * first matching plan's `duration_days`, else the default days of the mapped key.
   */
  lemma ExpiryAddsOffset(plans: seq<Plan>, start: string, d: Date, key: string)
    requires ParseIso(start) == Some(d)
    requires 1 <= AddDays(d, ExpiryOffset(plans, key)).year <= 9999
    ensures CalculateExpiryDate(plans, start, key).Some?
    ensures var e := ParseIso(CalculateExpiryDate(plans, start, key).value);
      e.Some? && DifferenceInDays(e.value, d) == ExpiryOffset(plans, key)
    ensures FindPlan(plans, key).Some? ==>
      ExpiryOffset(plans, key) == plans[FindPlan(plans, key).value].durationDays &&
      forall j :: 0 <= j < FindPlan(plans, key).value ==> !MatchesKey(plans[j], key)
    ensures FindPlan(plans, key).None? ==>
      ExpiryOffset(plans, key) == DefaultDuration(MapToCompatible(plans, key))
  {
    var e := AddDays(d, ExpiryOffset(plans, key));
    ParseIsoOfFormatYmd(e);
  }

  /** A plan with a positive number of days expires after it starts. */
  lemma ExpiryAfterStart(plans: seq<Plan>, start: string, d: Date, key: string)
    requires ParseIso(start) == Some(d) && ExpiryOffset(plans, key) > 0
    requires 1 <= AddDays(d, ExpiryOffset(plans, key)).year <= 9999
    ensures CalculateExpiryDate(plans, start, key).Some?
    ensures var e := ParseIso(CalculateExpiryDate(plans, start, key).value); e.Some? && Before(d, e.value)
  {
    ExpiryAddsOffset(plans, start, d, key);
    var e := ParseIso(CalculateExpiryDate(plans, start, key).value).value;
    DifferencePositiveIffBefore(d, e);
  }

  lemma ParseJanuaryFifteenth(s: string)
    requires s == "2024-01-15"
    ensures ParseIso(s) == Some(Date(2024, 1, 15))
  {
    assert s == "2024" + "-" + "01" + "-" + "15";
    assert "2024"[..3] == "202" && "202"[..2] == "20" && "20"[..1] == "2" && "2"[..0] == [];
    assert DecimalValue("2024") == 2024;
    assert "01"[..1] == "0" && "0"[..0] == [] && "15"[..1] == "1" && "1"[..0] == [];
    assert DecimalValue("01") == 1 && DecimalValue("15") == 15;
    ParseIsoOfParts("2024", "01", "15");
  }

  lemma FormatFebruaryFourteenth(d: Date)
    requires d == Date(2024, 2, 14)
    ensures FormatYmd(d) == "2024-02-14"
  {
    assert NatToDecimal(2) == "2";
    assert NatToDecimal(20) == "20";
    assert NatToDecimal(202) == "202";
    assert NatToDecimal(2024) == "2024";
    assert Pad4Year(2024) == "2024";
    assert NatToDecimal(1) == "1";
    assert NatToDecimal(14) == "14";
    assert Pad2(14) == "14";
    assert seq(1, _ => '0') + "2" == "02";
    assert Pad2(2) == "02";
  }

  /** With no plans loaded, a monthly membership from 2024-01-15 runs to 2024-02-14. */
  lemma MonthlyFromJanuaryFifteenth(start: string)
    requires start == "2024-01-15"
    ensures CalculateExpiryDate([], start, "mensual") == Some("2024-02-14")
  {
    var d := Date(2024, 1, 15);
    ParseJanuaryFifteenth(start);
    LegacyKeysAreLowerCase("mensual");
    assert ExpiryOffset([], "mensual") == 30;
    ThirtyDaysFromJanuaryFifteenth(d);
    FormatFebruaryFourteenth(Date(2024, 2, 14));
  }

  /** The price is the first matching plan's, else the default price of the mapped key. */
  lemma PriceOfKey(plans: seq<Plan>, key: string)
    ensures FindPlan(plans, key).Some? ==> MembershipPrice(plans, key) == plans[FindPlan(plans, key).value].price
    ensures FindPlan(plans, key).None? && WellFormedPlans(plans) ==>
      MembershipPrice(plans, key) == DefaultPrice(MapToCompatible(plans, key)) &&
      MembershipPrice(plans, key) in {15000, 40000, 75000, 140000}
  {
  }
}
