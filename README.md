# Gym dashboard core, modelled in Dafny

This project models the bookkeeping rules of a gym's front-desk dashboard. The dashboard keeps three
hosted tables:

- **members**: dni, name, phone, plan key, start date and expiry date;
- **transactions**: income and expense rows with a date and a time;
- **check-ins**: one row per visit, with the membership status shown at the door.

Three hooks read and write those tables: `useMembers`, `useCheckIns` and `useTransactions`. Three
tabs sit on top of them: the members table and form, the cash register, and the check-in desk.

The model covers:

- **Calendar dates** (modules `Calendar`, `DateText`, `Text`).
  - A date is a (year, month, day) triple with a days-from-civil numbering, so `addDays` and
    `differenceInDays` are integer arithmetic.
  - Three text forms are modelled, with their round trips: `getTodayLocal` (unpadded year), date-fns
    `yyyy-MM-dd`, and `dd/MM/yyyy`.
  - Two readers are modelled: `createLocalDate` (split on '-', `Number`, `new Date(y, m - 1, d)`
    with its roll-over) and `parseISO`.
  - `getCurrentMonthRange` gives the first and last day of the current month.
- **Plan resolution** (module `Plans`).
  - The `nameToId` table of `loadMembershipTypes`.
  - `mapToCompatibleMembershipType`, `calculateExpiryDate`, `getMembershipPrice`.
  - The concept names used in income rows.
- **Membership status** (module `Status`).
  - The day count to expiry and its three buckets.
  - The check-in texts, the members-table badge and the check-in panel colours, all proved to agree.
- **The store** (module `TableStore`).
  - A class with the three tables as sequences, newest first, and a counter for transaction ids.
  - Every remote call takes a success flag.
  - Its invariant: transaction ids are fresh and strictly decreasing down the table.
- **The hooks** as classes over the store.
  - `Registry.MembersHook`: `saveMember`, `renewMembership`, `fetchMembers`, `loadMembershipTypes`.
  - `CheckIns.CheckInsHook`: `checkInMember`, `fetchTodayCheckins`.
  - `Transactions.TransactionsHook`: `fetchTodayTransactions`, `addTransaction`, `deleteTransaction`.
- **The tabs.**
  - `MembersView`: search, the form, and the renewal dialog.
  - `Ledger`: the cash register's today/period listing, type filter, newest-first sort and summary
    cards.
  - `CheckInView`: the check-in desk's result card and its five-second auto-hide countdown.

Inputs from outside are parameters:

- `today` is a `Date`: the local calendar day of the clock.
- `now` is the text of the instant: `toISOString` for a check-in, `HH:mm` for a transaction.
- A day text is passed in where an operation reads the clock on its own.
- The `membership_types` response is an `Option`, with `None` meaning the table could not be read.
- Every call to the hosted store carries a success flag.

Money is a whole number of pesos.

Confirming the renewal dialog with a different plan re-saves the member through `saveMember`.
Because that member already exists, this is an update, and an update records no income
(`MembersView.ChangedPlanRenewalIsUpdate`). Only a renewal on the same plan goes through
`renewMembership`, which records one.

## Model

| member | source | states |
|---|---|---|
| Text.Trim | src/hooks/useCheckIns.ts:54 | the trimmed text has no white space at either end, and it is empty exactly when the text is all white space (the `!dni.trim()` test) |
| Text.TrimCutsEdges | src/hooks/useCheckIns.ts:54 | `trim` is the text with white space cut from its front and its back, and nothing else |
| Text.TrimIdempotent | src/hooks/useCheckIns.ts:68 | trimming an already trimmed dni changes nothing |
| Text.LowerCharKeepsSpace | src/components/MembersTab.tsx:62-66 | lower-casing a character never makes or removes white space |
| Text.ToLowerIdempotent | src/components/MembersTab.tsx:63-66 | lower-casing twice is lower-casing once |
| Text.SplitAtSeparator | src/hooks/useCheckIns.ts:17 | `split('-')` cuts at the first separator and splits the rest the same way |
| Text.NatToDecimal | src/hooks/useCheckIns.ts:9-11 | `String(n)` is a digit string whose value is `n`, with no leading zero from 10 on |
| Text.PadStart | src/hooks/useCheckIns.ts:10-11 | `padStart` keeps the text as a suffix, fills the front with the fill character, and reaches the width |
| Text.ParseNat | src/hooks/useCheckIns.ts:17 | `Number` gives a value exactly for a non-empty digit string |
| Text.ParseNatOfPadded | src/hooks/useCheckIns.ts:10-17 | reading back a zero-padded rendering gives the number |
| Calendar.AddDays | src/hooks/useMembers.ts:155-156 | `addDays(d, n)` is a valid date exactly `n` days from `d` in the day numbering |
| Calendar.FromDayNumberOfDayNumber | src/hooks/useMembers.ts:165-166 | the day numbering is a bijection: numbering a date and turning the number back gives the date |
| Calendar.AddDaysDifference | src/hooks/useCheckIns.ts:99 | adding `differenceInDays(e, d)` days to `d` gives `e` |
| Calendar.DifferencePositiveIffBefore | src/hooks/useCheckIns.ts:99 | the difference is positive exactly when the earlier date comes first in calendar order |
| Calendar.AddDaysCompose | src/hooks/useMembers.ts:166 | adding `a` days and then `b` days is adding `a + b` days |
| Calendar.AddOneDayIsNextDay | src/hooks/useMembers.ts:166 | adding one day is the calendar's next day (month and year ends included) |
| Calendar.ThirtyDaysFromJanuaryFifteenth | src/hooks/useMembers.ts:155-156 | 2024-01-15 plus 30 days is 2024-02-14 |
| Calendar.MonthBounds | src/components/CashTab.tsx:22-26 | `startOfMonth`/`endOfMonth` bracket the day, and the day after the month's last is outside the month |
| Calendar.LeapYearExamples | src/components/CashTab.tsx:25 | February has 29 days in 2024 and 2000, 28 in 2023 and 1900 |
| DateText.TodayLocalIsFormatYmd | src/hooks/useCheckIns.ts:7-13 | `getTodayLocal` and `format(d, 'yyyy-MM-dd')` agree for four-digit years |
| DateText.CreateLocalDateOfTodayLocal | src/hooks/useCheckIns.ts:7-19 | `createLocalDate(getTodayLocal())` gives back the same year, month and day (years from 100 on) |
| DateText.LocalDateInRange | src/hooks/useCheckIns.ts:18 | `new Date(y, m - 1, d)` with in-range components is that date (years 0 to 99 read as 1900 to 1999) |
| DateText.LocalDateRollsIntoNextYear | src/hooks/useCheckIns.ts:18 | month index 12 rolls over into January of the next year |
| DateText.LocalDateRollsBackToLeapDay | src/hooks/useCheckIns.ts:18 | day 0 of March 2024 rolls back to 29 February |
| DateText.ParseIso | src/hooks/useMembers.ts:155 | `parseISO` only yields dates that exist |
| DateText.ParseIsoOfFormatYmd | src/hooks/useMembers.ts:155-157 | `parseISO(format(d, 'yyyy-MM-dd'))` gives back `d` for years 1 to 9999 |
| DateText.FormatYmdOfIso | src/hooks/useMembers.ts:155-157 | formatting a parsed `YYYY-MM-DD` text gives back the text, field by field |
| DateText.IsoIsLocalDate | src/hooks/useCheckIns.ts:98 | `createLocalDate` reads a well-formed `YYYY-MM-DD` as the same date `parseISO` reads |
| DateText.FormatDateLocalOfIso | src/components/MembersTab.tsx:28-32 | `formatDateLocal` turns `YYYY-MM-DD` into `DD/MM/YYYY` with the same three fields |
| Records.DefaultPrice | src/hooks/useMembers.ts:196-204 | the fallback price is one of the four list prices, and 15000 for any other key |
| Plans.CompatibleIdForName | src/hooks/useMembers.ts:68-82 | the `nameToId` lookup always yields one of the four legacy keys |
| Plans.PlanNameMapsToItsKey | src/hooks/useMembers.ts:71-82 | "X" and "X + entrenador", in any case, map to the key X |
| Plans.OtherPlanNameMapsToMensual | src/hooks/useMembers.ts:82 | every other name maps to 'mensual' |
| Plans.LoadedPlans | src/hooks/useMembers.ts:49-63 | an unreadable table gives the four defaults; otherwise one plan per active row |
| Plans.LoadedPlansWellFormed | src/hooks/useMembers.ts:66-89 | a loaded plan keeps its id as `originalId`, gets the key of its name as `compatibleId`, so every compatible key is legacy |
| Plans.DefaultPlansWellFormed | src/hooks/useMembers.ts:96-101 | the default plans carry no compatible key that is not legacy |
| Plans.MapToCompatibleIsLegacy | src/hooks/useMembers.ts:106-127 | over well-formed plans the mapping always yields one of the four legacy keys |
| Plans.MapToCompatibleOfLegacy | src/hooks/useMembers.ts:108-111 | a legacy key in any case comes back lower-cased, whatever the plans |
| Plans.MapToCompatibleIdempotent | src/hooks/useMembers.ts:106-127 | mapping a mapped key again changes nothing |
| Plans.LegacyKeysAreLowerCase | src/hooks/useMembers.ts:108-110 | the legacy keys are their own lower case |
| Plans.DefaultDuration | src/hooks/useMembers.ts:146-154 | the default day count is 30, 90, 180 or 365, and 30 for any other key |
| Plans.CalculateExpiryDate | src/hooks/useMembers.ts:130-181 | an expiry is produced exactly when the start text parses as a date |
| Plans.ExpiryAddsOffset | src/hooks/useMembers.ts:137-167 | the expiry is the start plus exactly the first matching plan's `duration_days` (no earlier plan matches), else the default days of the mapped key |
| Plans.ExpiryAfterStart | src/hooks/useMembers.ts:165-167 | a plan with a positive duration expires after it starts |
| Plans.MonthlyFromJanuaryFifteenth | src/hooks/useMembers.ts:144-157 | with no plan loaded, 'mensual' from 2024-01-15 expires on 2024-02-14 |
| Plans.DefaultPlansAgreeWithFallbacks | src/hooks/useMembers.ts:58-63 | the default plan list and the two fallback tables give every key the same days and the same price |
| Plans.PriceOfKey | src/hooks/useMembers.ts:184-205 | the price is the first matching plan's, else the fallback price of the mapped key, one of 15000/40000/75000/140000 |
| Status.Classify | src/hooks/useCheckIns.ts:107-139 | exactly one bucket: expired below 0 days, expires-soon from 0 to 7, active above 7 or when the count is NaN |
| Status.StatusCodeInjective | src/hooks/useCheckIns.ts:107-119 | the codes and the texts of the three buckets are distinct, so each tells its bucket back |
| Status.StatusInfoAgrees | src/components/MembersTab.tsx:147-159 | the members-table badge says 'Vencida' and 'Activa' exactly for the check-in's expired and active buckets, and 'Vence en N días' for the rest |
| Status.StatusClassByBucket | src/components/CheckInTab.tsx:105-109 | expired is red, expires-soon yellow, active and any unknown code green |
| Status.Boundaries | src/hooks/useCheckIns.ts:111-116 | 8 days is active, 7 and 0 expire soon, -1 has expired, NaN is active |
| Status.ClassifyMonotone | src/hooks/useCheckIns.ts:111-116 | more days left never gives a worse bucket |
| Status.DaysUntilIsDistance | src/hooks/useCheckIns.ts:97-99 | the day count is the whole days from today to a well-formed expiry, and it is negative exactly when the expiry is past |
| Ledger.SortNewestFirst | src/components/CashTab.tsx:68-73 | the sort returns a permutation of its input, ordered by date then time, newest first |
| Ledger.TextLeTotal | src/components/CashTab.tsx:70-72 | any two date or time texts are comparable |
| Ledger.TextLeAntisymmetric | src/components/CashTab.tsx:70-72 | texts that compare both ways are equal |
| Ledger.TextLeTransitive | src/components/CashTab.tsx:70-72 | the text order is transitive |
| Ledger.ListedBeforeTotal | src/components/CashTab.tsx:68-73 | of any two rows, one may be listed before the other |
| Ledger.ListedBeforeTransitive | src/components/CashTab.tsx:68-73 | the listing order is transitive |
| Ledger.SumOfTypeAppend | src/components/CashTab.tsx:80-86 | the sum over two lists of rows is the sum of their sums |
| Ledger.SumOfTypePermutation | src/components/CashTab.tsx:77-94 | the sums depend on which rows there are, not on their order |
| Ledger.TodayRowsExactly | src/components/CashTab.tsx:49-51 | today view keeps exactly the rows dated with today's local text, in order |
| Ledger.RowsDatedExactly | src/hooks/useTransactions.ts:20-24 | the date query keeps exactly the rows with that date, in order |
| Ledger.RangeRowsExactly | src/components/CashTab.tsx:53-60 | period view keeps exactly the rows whose date lies from start to end, both included; with the bounds reversed, `isWithinInterval` orders them, so it keeps the rows dated after the end up to the start |
| Ledger.InRangeByDays | src/components/CashTab.tsx:53-58 | the instant test on midnight and 23:59:59 is, on whole days, start ≤ day ≤ end, or end < day ≤ start for a reversed range |
| Ledger.RangeIncludesBounds | src/components/CashTab.tsx:53-60 | the first and the last day of a range are in it |
| Ledger.TypeFilterExactly | src/components/CashTab.tsx:64-66 | 'all' keeps every row; a type keeps exactly the rows of that type |
| Ledger.ListingIsSortedPermutation | src/components/CashTab.tsx:46-74 | the listing is the viewed, type-filtered rows, rearranged newest first |
| Ledger.SummaryOfSorted | src/components/CashTab.tsx:77-94 | sorting does not change the summary |
| Ledger.PeriodSummaryFigures | src/components/CashTab.tsx:77-94 | income and expense are the per-type sums of the filtered rows, balance is their difference, the count is the number of filtered rows |
| Ledger.TypeFilterSums | src/components/CashTab.tsx:64-86 | filtering to one type keeps that type's sum and zeroes the other |
| Ledger.SummaryExample | src/components/CashTab.tsx:77-94 | income 100, expense 40 and income 25 give 125, 40, balance 85 over three rows |
| Ledger.TodayCardsIgnoreTypeFilter | src/components/CashTab.tsx:231-255 | in today view the cards show the hook's summary whatever is listed; in period view the period summary |
| Ledger.TodayListingMatchesHookSummary | src/hooks/useTransactions.ts:28-44 | over rows all dated today, the unfiltered today listing holds them all and its figures equal the hook's summary |
| Ledger.CurrentMonthRangeExactly | src/components/CashTab.tsx:22-31 | the range runs from day 01 to the month's last day (leap years included) and holds exactly the dates of that year and month |
| TableStore.Store.InsertTransaction | src/hooks/useTransactions.ts:61-74 | the stored row is the input's type, amount, concept, date and time under a fresh id, at the head of the table; nothing else changes |
| TableStore.Store.DeleteTransaction | src/hooks/useTransactions.ts:93-96 | the rows with that id go, the invariant is kept |
| TableStore.WithoutId | src/hooks/useTransactions.ts:93-96 | after the delete no row has the id, and every other row is still there |
| TableStore.RowsWithDni | src/hooks/useCheckIns.ts:65-68 | the `eq('dni', …)` query returns exactly the rows with that dni |
| TableStore.FirstWithDni | src/hooks/useMembers.ts:325 | `find` returns a row with that dni that no earlier row has, and none exactly when no row has it |
| TableStore.FirstOfQueryIsFirstMatch | src/hooks/useCheckIns.ts:87-91 | the first row of the query is the first matching row of the table |
| TableStore.WithoutIdKeepsOrder | src/hooks/useTransactions.ts:93-96 | deleting keeps the ids in decreasing order |
| TableStore.DeleteSubtracts | src/hooks/useTransactions.ts:93-96 | deleting a stored row removes exactly its amount from its type's total |
| Registry.NormalisePhone | src/hooks/useMembers.ts:236 | the phone is stored trimmed, and absent exactly when missing or blank |
| Registry.UpdateRows | src/hooks/useMembers.ts:258-261 | every row with the dni becomes the record, every other row stays |
| Registry.Upsert | src/hooks/useMembers.ts:245-269 | the corrected upsert of the Findings rows: matched on the trimmed dni the record carries, a new dni is inserted at the head, and a dni some row already has (one or several) is updated in place |
| Registry.RenewRows | src/hooks/useMembers.ts:336-342 | the update keeps the number of rows |
| Registry.MembersHook.LoadMembershipTypes | src/hooks/useMembers.ts:46-103 | the hook's plans are the loaded plans, and they are well formed |
| Registry.MembersHook.FetchMembers | src/hooks/useMembers.ts:28-44 | the table replaces the copy; a failed read keeps it |
| Registry.MembersHook.SaveMember | src/hooks/useMembers.ts:208-303 | the result is the corrected upsert (matched on the trimmed dni, see Findings) or the first error; an insert adds one income priced and named by the plan, dated today; on error nothing changes; the copy becomes the table when the re-read succeeds and is kept when it fails |
| Registry.MembersHook.RenewMembership | src/hooks/useMembers.ts:323-368 | nothing for a dni not in the copy or a failed update; otherwise every row with the dni gets today's start and the recomputed expiry, one income dated today is added when the ledger accepts it, and the copy becomes the table when the re-read succeeds |
| Registry.SaveRejectsMissingFields | src/hooks/useMembers.ts:214-225 | an empty dni, name, plan or start is rejected, in that order, before the store is touched |
| Registry.PreparedRecord | src/hooks/useMembers.ts:228-240 | the saved record has dni and name trimmed, phone trimmed or absent, the mapped plan key, the given start, and the expiry of the unmapped key |
| Registry.UpsertKeepsDnisUnique | src/hooks/useMembers.ts:245-269 | with matching on the stored dni, the table keeps one row per dni and holds the saved record |
| Registry.UpdateTouchesOnlyThatDni | src/hooks/useMembers.ts:256-264 | an update adds no row and leaves every other member alone |
| Registry.UpsertAsWrittenDuplicates | src/hooks/useMembers.ts:245-269 | as written, a dni typed with spaces misses the stored row and a second row with the same dni is inserted |
| Registry.TrailingSpaceDuplicatesMember | src/hooks/useMembers.ts:234-269 | "123 " typed beside a stored "123" leaves two rows with dni "123" |
| Registry.TrailingSpaceUpdatesMember | src/hooks/useMembers.ts:234-261 | matching on the trimmed dni updates the stored "123" instead |
| Registry.StoredTwiceGetsThirdRow | src/hooks/useMembers.ts:246-268 | as written, saving a dni stored twice gets PGRST116 from `maybeSingle`, takes it for "no row", and inserts a third row |
| Registry.StoredTwiceIsUpdated | src/hooks/useMembers.ts:256-261 | matching on every row with the dni updates both rows and adds none |
| Registry.RenewChangesOnlyDates | src/hooks/useMembers.ts:336-342 | a renewal changes the two dates of the matching rows and nothing else |
| Registry.RenewIdempotent | src/hooks/useMembers.ts:336-342 | renewing twice on one day is renewing once |
| Registry.RenewForgetsOldDates | src/hooks/useMembers.ts:334-342 | the renewed rows do not depend on the dates they had |
| Registry.RenewalFromToday | src/hooks/useMembers.ts:325-334 | a renewal from today's text starts today and expires the plan's days later |
| CheckIns.CheckInOutcome | src/hooks/useCheckIns.ts:53-91 | no result for a blank dni or a failed search; a result's member is a stored row with the trimmed dni |
| CheckIns.CheckInRecord | src/hooks/useCheckIns.ts:142-147 | the visit copies the member's dni and name, the instant, and the status text |
| CheckIns.CheckInsHook.FetchTodayCheckins | src/hooks/useCheckIns.ts:26-50 | today's rows replace the copy; a failed read keeps it |
| CheckIns.CheckInsHook.CheckInMember | src/hooks/useCheckIns.ts:53-184 | the result is the outcome; a found member's visit is inserted when accepted (a failed insert leaves the result alone) and today's list is re-read; otherwise nothing changes |
| CheckIns.CheckInFindsFirstRow | src/hooks/useCheckIns.ts:54-91 | no result exactly for a blank dni, a failed search or no row with the trimmed dni; otherwise the first such row |
| CheckIns.PaddingIsIgnored | src/hooks/useCheckIns.ts:68 | dnis that trim alike check in alike |
| CheckIns.TrimmedDniIsLookedUp | src/hooks/useCheckIns.ts:68 | a padded dni finds what the bare dni finds |
| CheckIns.ResultFollowsDays | src/hooks/useCheckIns.ts:97-139 | the result carries the member's day count, its bucket, and that bucket's text |
| CheckIns.ExpiredExactlyWhenPast | src/hooks/useCheckIns.ts:97-116 | a membership is reported expired exactly when its expiry lies before today, and the members table's badge agrees |
| CheckIns.RecordKeepsShownStatus | src/hooks/useCheckIns.ts:142-173 | the stored visit carries the status text shown and the trimmed dni |
| CheckIns.TextLeAfterPrefix | src/hooks/useCheckIns.ts:35-36 | text order is decided after a common prefix |
| CheckIns.StampedTodayIsListed | src/hooks/useCheckIns.ts:32-36 | a visit stamped on the day between 00:00:00 and 23:59:59 is in the day's list |
| CheckIns.TodayCheckinsExactly | src/hooks/useCheckIns.ts:32-36 | the day's list holds exactly the stored visits between the two bounds |
| CheckIns.LastSecondFractionExcluded | src/hooks/useCheckIns.ts:36 | a stamp with milliseconds after 23:59:59 lies above the upper bound |
| Transactions.TransactionsHook.FetchTodayTransactions | src/hooks/useTransactions.ts:16-52 | the rows dated today replace the copy and the summary is recomputed from them; a failed read keeps both |
| Transactions.TransactionsHook.AddTransaction | src/hooks/useTransactions.ts:55-88 | a stored row is added and today's rows re-read; a failed insert changes nothing |
| Transactions.TransactionsHook.DeleteTransaction | src/hooks/useTransactions.ts:91-106 | the row goes and today's rows are re-read; a failed delete changes nothing |
| Transactions.AddedRowShiftsSummary | src/hooks/useTransactions.ts:28-44 | an added row dated today comes first in the copy and adds its amount to its side; one dated otherwise leaves the copy alone |
| Transactions.DeleteRemovesRow | src/hooks/useTransactions.ts:93-101 | deleting a row takes its amount off its side and leaves no row with its id to re-read |
| MembersView.EmptyForm | src/components/MembersTab.tsx:79-88 | the cleared form has empty dni, name and phone, plan 'mensual' and start today |
| MembersView.FormOf | src/components/MembersTab.tsx:70-77 | editing loads the member's fields, a missing phone as empty |
| MembersView.SubmittedInput | src/components/MembersTab.tsx:96-99 | a submission carries the form's fields and an empty expiry |
| MembersView.RenewalActionOf | src/components/MembersTab.tsx:120-138 | nothing without a member or a plan; the same plan renews by dni; another plan re-saves dni, name and phone with the new plan from today |
| MembersView.MembersPanel.Edit | src/components/MembersTab.tsx:70-77 | the edited dni and the member's fields are set |
| MembersView.MembersPanel.ClearForm | src/components/MembersTab.tsx:79-88 | nothing is edited and the form is empty |
| MembersView.MembersPanel.Submit | src/components/MembersTab.tsx:90-102 | an incomplete form is not submitted and changes nothing; otherwise `saveMember` runs: the members table is upserted, a new member's income is added when the ledger accepts it, the copy is re-read, and the form is cleared only when it did not throw |
| MembersView.MembersPanel.RenewClick | src/components/MembersTab.tsx:110-113 | the dialog opens on the member with its plan selected |
| MembersView.MembersPanel.CloseModal | src/components/MembersTab.tsx:115-118 | the dialog closes and nothing is selected |
| MembersView.MembersPanel.ConfirmRenewal | src/components/MembersTab.tsx:120-145 | the branch taken is the renewal action; doing nothing changes nothing, the dialog included; another plan saves the member (table, income and copy as `saveMember` leaves them) and closes the dialog exactly when the save did not throw; the same plan renews the matching rows, adds the renewal income, and closes the dialog |
| MembersView.BlankSearchShowsAll | src/components/MembersTab.tsx:61 | a blank term shows every member in order |
| MembersView.SearchExactly | src/components/MembersTab.tsx:60-68 | a term keeps exactly the members whose lowercased name or dni contains the trimmed lowercased term, in order |
| MembersView.SearchByOwnDni | src/components/MembersTab.tsx:60-68 | a member is found by its own dni, whatever its case, when the dni has no white space at either end |
| MembersView.ChangedPlanRenewalIsUpdate | src/components/MembersTab.tsx:126-135 | renewing on another plan updates the stored row (new plan, start today) and records no income |
| MembersView.SubmitRecomputesExpiry | src/components/MembersTab.tsx:96-100 | a submitted member's expiry is always computed from its plan and start |
| CheckInView.ShowResult | src/components/CheckInTab.tsx:44-68 | a result starts the countdown at five; no result clears it |
| CheckInView.Dismiss | src/components/CheckInTab.tsx:100-103 | dismissing clears the result and the countdown |
| CheckInView.CheckInPanel.TimerTick | src/components/CheckInTab.tsx:49-57 | no countdown stays so; at one or below the card hides; otherwise the countdown drops by one |
| CheckInView.CheckInPanel.DismissResult | src/components/CheckInTab.tsx:100-103 | the panel becomes the dismissed state |
| CheckInView.CheckInPanel.Search | src/components/CheckInTab.tsx:75-84 | a blank box changes nothing, neither the stored visits nor the listed ones; otherwise the check-in result is shown with a fresh countdown, the box is emptied, the visit row is added to the stored check-ins exactly when a member was found and the insert succeeded, and the day's list is re-read when a member was found and the read succeeded |
| CheckInView.CheckInPanel.RenewFromCheckIn | src/components/CheckInTab.tsx:92-98 | the membership is renewed (the matching rows get the new dates, the renewal income is added), the members copy is re-read exactly when the renewal happened and that read succeeded, the renewed member is checked in again (a second visit row when found and inserted, the day's list re-read when found and read), and that check-in is shown with a fresh countdown |
| CheckInView.CountdownHidesAtZero | src/components/CheckInTab.tsx:50-57 | a countdown at n keeps the result for n - 1 ticks and hides it at the n-th |
| CheckInView.HiddenStaysHidden | src/components/CheckInTab.tsx:51 | with nothing shown, ticks change nothing |
| CheckInView.HidesAfterFiveTicks | src/components/CheckInTab.tsx:44-58 | an undisturbed result stays for four ticks and is gone after the fifth |
| CheckInView.PausedStaysShown | src/components/CheckInTab.tsx:92-93 | a paused card stays on screen however long it ticks |
| CheckInView.EventsKeepConsistent | src/components/CheckInTab.tsx:44-103 | every event keeps a running countdown attached to a result and between one and five |
| CheckInView.CardOptions | src/components/CheckInTab.tsx:204-211 | renewal is offered exactly for an expired membership, which never shows days left; one about to expire shows 0 to 7 days; the card is red exactly when expired |
| CheckInView.RenewedCheckInShowsPlanDays | src/components/CheckInTab.tsx:92-98 | after renewing from the card, the check-in reports the plan's full duration as the days left |
| CheckInView.RenewedRowsCarryExpiry | src/hooks/useMembers.ts:336-342 | after the update the first row with the dni carries the new expiry |
| CheckInView.CheckInOfExpiry | src/hooks/useCheckIns.ts:91-99 | a member whose first row expires on e is checked in with the days from today to e |

## Left out

- Toasts, console logging, `confirm()` dialogs, input focus timers, loading flags and all JSX. Each handler runs as one atomic step, so a loading flag set and cleared inside it is never observed.
- Concurrency between browser tabs and stations, and React effect scheduling. The countdown effect's interval is modelled as a tick event.
- Time zones and daylight saving. `today` is the local calendar day. The UTC `toISOString` stamp of a check-in is a text parameter, and the day filter compares it as text.
- The instants and the `HH:mm` time. They are text parameters, and the clock reads of one handler may be separate parameters. Examples: `RenewFromCheckIn` and `ConfirmRenewal` take the day text `renewMembership` formats on its own, and `SaveMember` takes `today` for the income's date.
- `deleteMember` (useMembers.ts:306-320). It is a single remote delete followed by a re-read.
- Order of the check-in list: `fetchTodayCheckins` orders by `check_in_time`. The model keeps the store's newest-first insertion order, which agrees when stamps increase.
- Order of the members list: `fetchMembers` orders by `created_at`. The store keeps the rows newest first, and an update keeps a row's place.
- `maybeSingle` and `PGRST116`: several rows with the typed dni make `maybeSingle` fail with PGRST116, which `saveMember` skips as if no row matched. The as-written upsert models that (second Findings row). `lookupOk == false` stands for any other error of the existence query, which `saveMember` throws.
- Which duplicate comes first: the check-in query (useCheckIns.ts:65-68) has no `.order`, so the source does not fix which of several rows with a dni is returned first. CheckIns.CheckInFindsFirstRow and TableStore.FirstOfQueryIsFirstMatch take "first" in the store's newest-first order, a choice of the model.
- Ledger.InRange: `isWithinInterval` is modelled as in date-fns 3 and later, which orders the two bounds. date-fns 2 throws a RangeError on a reversed range instead. The dependency's version is not part of this model. A bound that is not a date lists nothing.
- The `catch` fallback of `calculateExpiryDate` (useMembers.ts:174-180) parses the same start text again. It throws again for a start that is not a date, so it changes no outcome. It would matter only for a plan row without a numeric `duration_days`, and plan rows here always carry an integer.
- Plans.CompatibleIdForName: inherited `Object.prototype` names such as "constructor" are not modelled. They hit a non-string entry of the `nameToId` object literal.
- DateText.CreateLocalDate: `Number` is modelled on non-empty digit strings only. JavaScript also reads an empty part as 0, and padded, signed, exponent or hexadecimal parts as numbers. Here those give an Invalid Date (`None`).
- DateText.ParseIso: only the `YYYY-MM-DD` form is modelled. `parseISO` also accepts other ISO forms, such as basic format, week dates and times.
- Ledger.TextLe: `localeCompare` is modelled as code-point order. The compared texts are ASCII digits with '-' or ':' separators, where the two agree.
- Ledger.SortNewestFirst: the order is stated, and so is the permutation. The stability of `Array.prototype.sort` for equal keys is not.
- Text.Trim: its own ensures does not state that only edge white space is cut. That property is the lemma `Text.TrimCutsEdges`, because as an ensures of `Trim` it sends the solver into a loop in every proof that has `Trim(dni) == dni` in scope.
- Text.LowerChar: `toLowerCase` is modelled for ASCII and Latin-1 capitals only. Other Unicode case mappings are not modelled.
- The JavaScript `Date` range limit of ±100 000 000 days is not modelled. Dates are unbounded, and round-trip lemmas require years 1 to 9999 (100 to 9999 where `createLocalDate` is involved).
- `Number(amount)` in `addTransaction` and floating-point money: amounts are whole pesos. `Intl` currency formatting is not modelled.
- CheckInView.CheckInPanel.RenewFromCheckIn: the second visit row it inserts is stated in its ensures, as the source inserts it. No property beyond that row, the re-read list and the shown result is stated about it.
- The admin panel, the admin data hook, the page shell and the client construction are not part of this model.

## Findings

| source | as written | input that shows it | evidently intended | confidence | as-written member | corrected member |
|---|---|---|---|---|---|---|
| src/hooks/useMembers.ts:234-269 | `saveMember` stores `dni.trim()`, but looks up and updates with the dni as typed | member "123" stored, then the form is saved with dni "123 " | the existing member "123" is updated, so one row per dni | not executed | Registry.UpsertAsWritten, Registry.TrailingSpaceDuplicatesMember | Registry.Upsert, Registry.UpsertKeepsDnisUnique, Registry.TrailingSpaceUpdatesMember |
| src/hooks/useMembers.ts:246-255 | the existence check is `maybeSingle`, whose PGRST116 error (several rows) is skipped as "no rows found", so the member is inserted again with an income | dni "123" stored twice (as the first row leaves it), then saved again | the existing rows are updated and no row is added | not executed | Registry.UpsertAsWritten, Registry.StoredTwiceGetsThirdRow | Registry.Upsert, Registry.StoredTwiceIsUpdated, Registry.UpdateTouchesOnlyThatDni |
