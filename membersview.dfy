/**
 * The members tab: the search box over the members list, the member form (edit, clear,
 * submit) and the renewal dialog, which either renews on the same plan or saves the member
 * again under a new plan starting today.
 */
module MembersView {
  import opened Wrappers
  import opened Text
  import opened Calendar
  import opened DateText
  import opened Seqs
  import opened Records
  import opened Plans
  import opened Registry

  /** The member `includes` the lowercased, trimmed term in its lowercased name or dni. */
  predicate MatchesTerm(m: Member, needle: string) {
    Contains(ToLower(m.name), needle) || Contains(ToLower(m.dni), needle)
  }

  /** `searchTerm.toLowerCase().trim()`. */
  function Needle(term: string): string {
    Trim(ToLower(term))
  }

  /** `filteredMembers`: all members for a blank term, else those that match it, in list order. */
  function SearchMembers(members: seq<Member>, term: string): seq<Member> {
    if IsBlank(term) then members
    else
      var needle := Needle(term);
      Filter(members, (m: Member) => MatchesTerm(m, needle))
  }

  /** The values of the member form. */
  datatype MemberForm = MemberForm(dni: string, name: string, phone: string, membershipType: string,
                                   startDate: string)

  /** The values `handleClearForm` resets the form to. */
  function EmptyForm(today: Date): (f: MemberForm)
    requires Valid(today)
    ensures f.dni == "" && f.name == "" && f.phone == "" && f.membershipType == "mensual"
    ensures f.startDate == TodayLocal(today)
  {
    MemberForm("", "", "", "mensual", TodayLocal(today))
  }

  /** The values `handleEdit` loads: a missing phone shows as empty. */
  function FormOf(m: Member): (f: MemberForm)
    ensures f.dni == m.dni && f.name == m.name && f.membershipType == m.membershipType
    ensures f.startDate == m.startDate
    ensures f.phone == if m.phone.Some? then m.phone.value else ""
  {
    MemberForm(m.dni, m.name, match m.phone case Some(p) => p case None => "", m.membershipType, m.startDate)
  }

  /** The four `required` fields of the form are filled in (white space counts as filled). */
  predicate FormComplete(f: MemberForm) {
    f.dni != "" && f.name != "" && f.membershipType != "" && f.startDate != ""
  }

  /** `onSubmit`: the form's values with an empty expiry, which `saveMember` recomputes. */
  function SubmittedInput(f: MemberForm): (input: MemberInput)
    ensures input.expiryDate == "" && input.phone == Some(f.phone)
    ensures input.dni == f.dni && input.name == f.name
    ensures input.membershipType == f.membershipType && input.startDate == f.startDate
  {
    MemberInput(f.dni, f.name, Some(f.phone), f.membershipType, f.startDate, "")
  }

  /** What confirming the renewal dialog does. */
  datatype RenewalAction =
    | NoAction                    // no member in the dialog, or no plan selected
    | SaveChanged(input: MemberInput)  // another plan: save the member again from today
    | RenewSame(dni: string)      // the same plan: `renewMembership`

  /** The branching of `handleRenewalConfirm`. */
  function RenewalActionOf(member: Option<Member>, selected: string, today: Date): (a: RenewalAction)
    requires Valid(today)
    ensures a.NoAction? <==> member.None? || selected == ""
    ensures a.RenewSame? <==> member.Some? && selected != "" && selected == member.value.membershipType
    ensures a.RenewSame? ==> a.dni == member.value.dni
    ensures a.SaveChanged? ==> a.input == MemberInput(member.value.dni, member.value.name, member.value.phone,
                                                       selected, TodayLocal(today), "")
  {
    if member.None? || selected == "" then NoAction
    else
      var m := member.value;
      if selected != m.membershipType then
        SaveChanged(MemberInput(m.dni, m.name, m.phone, selected, TodayLocal(today), ""))
      else
        RenewSame(m.dni)
  }

  class MembersPanel {
    /** The dni of the member being edited, if any. */
    var editingDni: Option<string>
    var form: MemberForm
    var searchTerm: string
    var modalOpen: bool
    var modalMember: Option<Member>
    var selectedType: string
    const hook: MembersHook

    constructor (hook: MembersHook, today: Date)
      requires Valid(today)
      ensures this.hook == hook && editingDni == None && searchTerm == ""
      ensures form.startDate == TodayLocal(today)
      ensures !modalOpen && modalMember == None && selectedType == ""
    {
      this.hook := hook;
      editingDni, searchTerm := None, "";
      form := MemberForm("", "", "", "", TodayLocal(today));
      modalOpen, modalMember, selectedType := false, None, "";
    }

    /** The rows the table shows. */
    function Shown(): seq<Member>
      reads this, hook
    {
      SearchMembers(hook.members, searchTerm)
    }

    /** `handleEdit`. */
    method Edit(m: Member)
      modifies this`editingDni, this`form
      ensures editingDni == Some(m.dni) && form == FormOf(m)
    {
      editingDni := Some(m.dni);
      form := FormOf(m);
    }

    /** `handleClearForm`. */
    method ClearForm(today: Date)
      requires Valid(today)
      modifies this`editingDni, this`form
      ensures editingDni == None && form == EmptyForm(today)
    {
      editingDni := None;
      form := EmptyForm(today);
    }

    /**
     * The form's submit: an incomplete form is not submitted; otherwise the member is saved
     * with an empty expiry, and the form is cleared only when `saveMember` did not throw.
     */
    method Submit(today: Date, now: string, lookupOk: bool, writeOk: bool, ledgerOk: bool, fetchOk: bool)
      returns (r: Option<Result<Upserted, SaveError>>)
      requires Valid(today) && hook.store.Valid()
      modifies this`editingDni, this`form, hook`members, hook.store
      ensures hook.store.Valid()
      ensures r.None? <==> !FormComplete(old(form))
      ensures r.Some? ==> r.value == SaveMemberSpec(hook.plans, old(hook.store.members), SubmittedInput(old(form)),
                                                      lookupOk, writeOk)
      ensures hook.store.members == if r.Some? && r.value.Ok? then r.value.value.rows else old(hook.store.members)
      ensures hook.store.transactions ==
        if r.Some? && r.value.Ok? && r.value.value.inserted && ledgerOk
        then [TxRow(old(hook.store.nextId), NewMemberIncome(hook.plans, SubmittedInput(old(form)), today, now))]
             + old(hook.store.transactions)
        else old(hook.store.transactions)
      ensures hook.store.checkins == old(hook.store.checkins)
      ensures hook.members == if r.Some? && r.value.Ok? && fetchOk then hook.store.members else old(hook.members)
      ensures if r.Some? && r.value.Ok? then editingDni == None && form == EmptyForm(today)
              else editingDni == old(editingDni) && form == old(form)
    {
      if !FormComplete(form) {
        return None;
      }
      var saved := hook.SaveMember(SubmittedInput(form), today, now, lookupOk, writeOk, ledgerOk, fetchOk);
      r := Some(saved);
      if saved.Ok? {
        ClearForm(today);
      }
    }

    /** `handleRenewClick`: open the dialog on the member with its current plan selected. */
    method RenewClick(m: Member)
      modifies this`modalOpen, this`modalMember, this`selectedType
      ensures modalOpen && modalMember == Some(m) && selectedType == m.membershipType
    {
      modalOpen, modalMember, selectedType := true, Some(m), m.membershipType;
    }

    /** `handleCloseModal`. */
    method CloseModal()
      modifies this`modalOpen, this`modalMember, this`selectedType
      ensures !modalOpen && modalMember == None && selectedType == ""
    {
      modalOpen, modalMember, selectedType := false, None, "";
    }

    /**
     * `handleRenewalConfirm`: nothing without a member and a plan; a new plan saves the member
     * again from today (the dialog closes unless `saveMember` throws); the same plan renews it
     * (the dialog closes, since `renewMembership` never throws). `renewDay` is the
     * 'yyyy-MM-dd' text of the clock read by `renewMembership` itself.
     */
    method ConfirmRenewal(today: Date, renewDay: string, now: string, lookupOk: bool, writeOk: bool,
                          ledgerOk: bool, fetchOk: bool)
      returns (action: RenewalAction)
      requires Valid(today) && hook.store.Valid()
      modifies this`modalOpen, this`modalMember, this`selectedType, hook`members, hook.store
      ensures hook.store.Valid()
      ensures action == RenewalActionOf(old(modalMember), old(selectedType), today)
      ensures hook.store.checkins == old(hook.store.checkins)
      ensures action.NoAction? ==>
        modalOpen == old(modalOpen) && modalMember == old(modalMember) && selectedType == old(selectedType)
        && hook.store.members == old(hook.store.members) && hook.store.transactions == old(hook.store.transactions)
        && hook.members == old(hook.members)
      ensures action.SaveChanged? ==>
        var saved := SaveMemberSpec(hook.plans, old(hook.store.members), action.input, lookupOk, writeOk);
        hook.store.members == (if saved.Ok? then saved.value.rows else old(hook.store.members))
        && hook.store.transactions ==
             (if saved.Ok? && saved.value.inserted && ledgerOk
              then [TxRow(old(hook.store.nextId), NewMemberIncome(hook.plans, action.input, today, now))]
                   + old(hook.store.transactions)
              else old(hook.store.transactions))
        && hook.members == (if saved.Ok? && fetchOk then hook.store.members else old(hook.members))
        && if saved.Ok? then !modalOpen && modalMember == None && selectedType == ""
           else modalOpen == old(modalOpen) && modalMember == old(modalMember) && selectedType == old(selectedType)
      ensures action.RenewSame? ==>
        var p := if writeOk then RenewalPlan(hook.plans, old(hook.members), action.dni, renewDay) else None;
        hook.store.members == (if p.Some? then RenewRows(old(hook.store.members), action.dni, p.value.start, p.value.expiry)
                               else old(hook.store.members))
        && hook.store.transactions ==
             (if p.Some? && ledgerOk
              then [TxRow(old(hook.store.nextId), RenewalIncome(hook.plans, p.value.member, p.value.start, now))]
                   + old(hook.store.transactions)
              else old(hook.store.transactions))
        && hook.members == (if p.Some? && fetchOk then hook.store.members else old(hook.members))
        && !modalOpen && modalMember == None && selectedType == ""
    {
      action := RenewalActionOf(modalMember, selectedType, today);
      match action
      case NoAction =>
      case SaveChanged(input) =>
        var r := hook.SaveMember(input, today, now, lookupOk, writeOk, ledgerOk, fetchOk);
        if r.Ok? {
          CloseModal();
        }
      case RenewSame(dni) =>
        var _ := hook.RenewMembership(dni, renewDay, now, writeOk, ledgerOk, fetchOk);
        CloseModal();
    }
  }

  // ---------------------------------------------------------------------------------------------
  // Properties

  /** A blank or white-space term shows every member, in order. */
  lemma BlankSearchShowsAll(members: seq<Member>, term: string)
    requires AllSpace(term)
    ensures SearchMembers(members, term) == members
  {
  }

  /**
   * A term with text keeps exactly the members whose lowercased name or dni contains the
   * lowercased, trimmed term, without reordering them.
   */
  lemma SearchExactly(members: seq<Member>, term: string)
    requires !IsBlank(term)
    ensures forall m :: m in SearchMembers(members, term) <==> m in members && MatchesTerm(m, Needle(term))
    ensures SubsequenceOf(SearchMembers(members, term), members)
  {
    var needle := Needle(term);
    FilterIsSubsequence(members, (m: Member) => MatchesTerm(m, needle));
  }

  /** A member is always found by its own dni, typed as stored without surrounding white space. */
  lemma SearchByOwnDni(members: seq<Member>, m: Member)
    requires m in members && m.dni != []
    requires !IsSpace(m.dni[0]) && !IsSpace(m.dni[|m.dni| - 1])
    ensures m in SearchMembers(members, m.dni)
  {
    OwnDniIsItsNeedle(m.dni);
    MatchesOwnLowerDni(m);
    FoundByNeedle(members, m, Needle(m.dni));
  }

  lemma MatchesOwnLowerDni(m: Member)
    ensures MatchesTerm(m, ToLower(m.dni))
  {
    assert OccursAt(ToLower(m.dni), ToLower(m.dni), 0);
  }

  lemma FoundByNeedle(members: seq<Member>, m: Member, needle: string)
    requires m in members && MatchesTerm(m, needle)
    ensures m in Filter(members, (x: Member) => MatchesTerm(x, needle))
  {
    var k :| 0 <= k < |members| && members[k] == m;
  }

  /** An unpadded text is not blank, and its search needle is its own lower case. */
  lemma OwnDniIsItsNeedle(dni: string)
    requires dni != [] && !IsSpace(dni[0]) && !IsSpace(dni[|dni| - 1])
    ensures !IsBlank(dni) && Needle(dni) == ToLower(dni)
  {
    var lower := ToLower(dni);
    LowerCharKeepsSpace(dni[0]);
    LowerCharKeepsSpace(dni[|dni| - 1]);
    TrimStartKeepsUnpadded(lower);
    TrimEndKeepsUnpadded(lower);
    TrimStartKeepsUnpadded(dni);
    TrimEndKeepsUnpadded(dni);
  }

  /**
   * Renewing on another plan goes through `saveMember`'s update path: the stored row is
   * replaced by one on the new plan starting today, and no income is recorded, unlike a
   * same-plan renewal.
   */
  lemma ChangedPlanRenewalIsUpdate(plans: seq<Plan>, rows: seq<Member>, m: Member, selected: string, today: Date)
    requires Valid(today) && 1000 <= today.year <= 9999
    requires m in rows && m.dni != "" && Trim(m.dni) == m.dni && m.name != ""
    requires selected != "" && selected != m.membershipType
    ensures var a := RenewalActionOf(Some(m), selected, today);
      a.SaveChanged?
      && SaveMemberSpec(plans, rows, a.input, true, true).Ok?
      && !SaveMemberSpec(plans, rows, a.input, true, true).value.inserted
      && var saved := SaveMemberSpec(plans, rows, a.input, true, true).value.rows;
         |saved| == |rows|
         && forall i :: 0 <= i < |rows| && rows[i].dni == m.dni ==>
              saved[i].startDate == TodayLocal(today)
              && saved[i].membershipType == MapToCompatible(plans, selected)
  {
    var a := RenewalActionOf(Some(m), selected, today);
    TodayLocalIsFormatYmd(today);
    ParseIsoOfFormatYmd(today);
    var k :| 0 <= k < |rows| && rows[k] == m;
    assert HasDni(rows, m.dni);
  }

  /** Submitting always hands `saveMember` an empty expiry, so the expiry is recomputed from the plan. */
  lemma SubmitRecomputesExpiry(plans: seq<Plan>, f: MemberForm, saved: Member)
    requires PrepareMember(plans, SubmittedInput(f)) == Ok(saved)
    ensures Some(saved.expiryDate) == CalculateExpiryDate(plans, f.startDate, f.membershipType)
    ensures FormComplete(f)
  {
  }
}
