/**
 * SubscriptionManager.js: the staff screen that searches members, loads one
 * into the editor and posts a manual subscription update.
 *
 * Dates are instants in milliseconds. A `Date` that `toISOString` rejects
 * (an unparseable `end_date`, or the picker cleared to `null`) is
 * `NotADate`. The whole-day count `getMembershipStatus` derives from the
 * clock is an input, with `NaN` as its own case.
 */
module Subscriptions {
  import opened Wrappers
  import opened Text

  const MinQueryLength := 2
  const SelectFirst := "Please select a member first"
  const UpdateFailed := "Failed to update subscription"
  const Updated := "Subscription updated successfully!"

  datatype DateValue = Instant(ms: int) | NotADate

  /** A member's `end_date` as sent by the server, with the date `new Date(...)` makes of it. */
  datatype EndDate = EndDate(text: string, parsed: DateValue)

  datatype Member = Member(
    id: string,
    name: string,
    planId: Option<string>,
    endDate: Option<EndDate>,
    membershipStatus: Option<string>)

  /** `member.end_date` is truthy: present and not the empty string. */
  predicate HasEndDate(m: Member) {
    m.endDate.Some? && m.endDate.value.text != ""
  }

  datatype Form = Form(newExpiry: DateValue, planId: string, reason: string)

  datatype EditorState = EditorState(
    query: string,
    results: seq<Member>,
    searching: bool,
    selected: Option<Member>,
    form: Form)

  /** The form as first rendered and as reset after a successful update: today's date, no plan, no reason. */
  function BlankForm(now: int): Form {
    Form(Instant(now), "", "")
  }

  // ---------------------------------------------------------------------------
  // Search

  /** The query is long enough to search: JavaScript's `length`, in UTF-16 code units. */
  predicate Searchable(query: string) {
    Utf16Length(query) >= MinQueryLength
  }

  /**
   * `handleSearchChange`: store the query; a searchable one marks the search
   * as running and schedules a search for it, a shorter one clears the results.
   */
  function SearchChange(st: EditorState, query: string): (r: (EditorState, Option<string>))
    ensures r.0.query == query && r.0.selected == st.selected && r.0.form == st.form
    ensures r.1.Some? <==> Searchable(query)
    ensures r.1.Some? ==> r.1.value == query && r.0.searching && r.0.results == st.results
    ensures r.1.None? ==> !r.0.searching && r.0.results == []
  {
    if Searchable(query) then (st.(query := query, searching := true), Some(query))
    else (st.(query := query, results := [], searching := false), None)
  }

  /** For text without characters above U+FFFF the threshold is two characters. */
  lemma SearchThresholdForPlainText(query: string)
    requires forall k :: 0 <= k < |query| ==> query[k] as int <= 0xFFFF
    ensures Searchable(query) <==> |query| >= 2
  {
  }

  /** One character above U+FFFF is two code units, so on its own it already starts a search. */
  lemma OneAstralCharacterSearches(c: char)
    requires c as int > 0xFFFF
    ensures Searchable([c])
  {
  }

  /** `searchMembers` finishing: found members replace the results; either way the search stops. */
  function SearchDone(st: EditorState, found: Option<seq<Member>>): (r: EditorState)
    ensures !r.searching && r.query == st.query && r.selected == st.selected && r.form == st.form
    ensures r.results == if found.Some? then found.value else st.results
  {
    match found
    case None => st.(searching := false)
    case Some(members) => st.(results := members, searching := false)
  }

  /** Below the threshold no results are listed: what the short-query branch of `handleSearchChange` sets up. */
  predicate ShortQueryShowsNothing(st: EditorState) {
    !Searchable(st.query) ==> st.results == []
  }

  /** Every query change leaves a short query with no results listed. */
  lemma SearchChangeHidesShortQueryResults(st: EditorState, query: string)
    ensures ShortQueryShowsNothing(SearchChange(st, query).0)
  {
  }

  /**
   * As written, the cleanup `handleSearchChange` returns is never called, so
   * a search scheduled for "ab" still runs after the query is cut to "a", and
   * its answer lists members under a one-character query.
   */
  lemma StaleSearchListsResultsForShortQuery(st: EditorState, m: Member)
    ensures var typed := SearchChange(st, "ab");
      var cut := SearchChange(typed.0, "a");
      var answered := SearchDone(cut.0, Some([m]));
      && typed.1 == Some("ab") && cut.1.None?
      && ShortQueryShowsNothing(cut.0)
      && !ShortQueryShowsNothing(answered)
  {
    assert Utf16Length("ab") == 2;
    assert Utf16Length("a") == 1;
  }

  /**
   * The answer to the search for `query` as the debounce intends it: an
   * answer for a query that is no longer in the box is dropped, as if its
   * timer had been cleared.
   */
  function SearchAnswered(st: EditorState, query: string, found: Option<seq<Member>>): (r: EditorState)
    ensures r.query == st.query && r.selected == st.selected && r.form == st.form
    ensures query != st.query ==> r == st
    ensures query == st.query ==> !r.searching && r.results == (if found.Some? then found.value else st.results)
  {
    if query == st.query then SearchDone(st, found) else st
  }

  /** With stale answers dropped, an answer never lists results under a short query. */
  lemma SearchAnsweredHidesShortQueryResults(st: EditorState, query: string, found: Option<seq<Member>>)
    requires Searchable(query)
    requires ShortQueryShowsNothing(st)
    ensures ShortQueryShowsNothing(SearchAnswered(st, query, found))
  {
  }

  // ---------------------------------------------------------------------------
  // Editing

  /**
   * `handleSelectMember`: load the member into the editor, show their name in
   * the search box, close the results and start the form from their plan and
   * end date (today when they have none).
   */
  function SelectMember(st: EditorState, m: Member, now: int): (r: EditorState)
    ensures r.selected == Some(m) && r.query == m.name && r.results == [] && r.searching == st.searching
    ensures r.form.reason == ""
    ensures r.form.planId == (if m.planId.GetOr("") != "" then m.planId.value else "")
    ensures HasEndDate(m) ==> r.form.newExpiry == m.endDate.value.parsed
    ensures !HasEndDate(m) ==> r.form.newExpiry == Instant(now)
  {
    var expiry := if HasEndDate(m) then m.endDate.value.parsed else Instant(now);
    st.(selected := Some(m), query := m.name, results := [], form := Form(expiry, m.planId.GetOr(""), ""))
  }

  /** The two text fields `handleInputChange` writes by name. */
  datatype Field = PlanField | ReasonField

  function InputChange(st: EditorState, field: Field, value: string): (r: EditorState)
    ensures r.form.newExpiry == st.form.newExpiry
    ensures r.form.planId == (if field == PlanField then value else st.form.planId)
    ensures r.form.reason == (if field == ReasonField then value else st.form.reason)
    ensures r.query == st.query && r.results == st.results && r.selected == st.selected
  {
    match field
    case PlanField => st.(form := st.form.(planId := value))
    case ReasonField => st.(form := st.form.(reason := value))
  }

  /** `handleDateChange`; a cleared picker is `NotADate`. */
  function DateChange(st: EditorState, date: DateValue): (r: EditorState)
    ensures r.form == Form(date, st.form.planId, st.form.reason)
    ensures r.query == st.query && r.results == st.results && r.selected == st.selected
  {
    st.(form := st.form.(newExpiry := date))
  }

  /** The Cancel button: unload the member and clear the search box; the form is left as it was. */
  function CancelEdit(st: EditorState): (r: EditorState)
    ensures r.selected.None? && r.query == ""
    ensures r.results == st.results && r.form == st.form
  {
    st.(selected := None, query := "")
  }

  // ---------------------------------------------------------------------------
  // Submitting

  /** The body posted to `/subscriptions/manual-update`; `reason` is left out when empty. */
  datatype UpdateRequest = UpdateRequest(memberId: string, newExpiryMs: int, planId: string, reason: Option<string>)

  /** The server's answer: accepted, or an error with an optional `detail`. */
  datatype UpdateReply = Accepted | Rejected(detail: Option<string>)

  datatype SubmitStep = SubmitStep(state: EditorState, request: Option<UpdateRequest>, alert: string)

  /**
   * `handleSubmit`. Without a selected member nothing is sent. A date that
   * `toISOString` rejects throws before the post and reports the generic
   * failure. A successful update unloads the member, clears the search box
   * and resets the form; a failed one leaves everything as it was.
   */
  function Submit(st: EditorState, reply: UpdateReply, now: int): (r: SubmitStep)
    ensures st.selected.None? ==> r == SubmitStep(st, None, SelectFirst)
    ensures r.request.Some? <==> st.selected.Some? && st.form.newExpiry.Instant?
    ensures r.request.Some? ==>
      && r.request.value.memberId == st.selected.value.id
      && r.request.value.newExpiryMs == st.form.newExpiry.ms
      && r.request.value.planId == st.form.planId
    ensures r.request.Some? ==> (r.request.value.reason.None? <==> st.form.reason == "")
    ensures r.request.Some? && r.request.value.reason.Some? ==> r.request.value.reason.value == st.form.reason
    ensures r.request.Some? && reply.Accepted? ==>
      r.alert == Updated && r.state == st.(selected := None, query := "", form := BlankForm(now))
    ensures st.selected.Some? && !(r.request.Some? && reply.Accepted?) ==> r.state == st
    ensures st.selected.Some? && st.form.newExpiry.NotADate? ==> r.alert == UpdateFailed
    ensures r.request.Some? && reply.Rejected? ==>
      r.alert == (if reply.detail.GetOr("") != "" then reply.detail.value else UpdateFailed)
  {
    match st.selected
    case None => SubmitStep(st, None, SelectFirst)
    case Some(m) =>
      match st.form.newExpiry
      case NotADate => SubmitStep(st, None, UpdateFailed)
      case Instant(ms) =>
        var reason := if st.form.reason != "" then Some(st.form.reason) else None;
        var request := UpdateRequest(m.id, ms, st.form.planId, reason);
        match reply
        case Accepted =>
          SubmitStep(st.(selected := None, query := "", form := BlankForm(now)), Some(request), Updated)
        case Rejected(detail) =>
          var alert := if detail.GetOr("") != "" then detail.value else UpdateFailed;
          SubmitStep(st, Some(request), alert)
  }

  /** After a successful update there is no member loaded, so submitting again sends nothing. */
  lemma SuccessfulSubmitIsNotRepeated(st: EditorState, reply: UpdateReply, now: int, again: UpdateReply, later: int)
    requires Submit(st, reply, now).request.Some? && reply.Accepted?
    ensures Submit(Submit(st, reply, now).state, again, later).request.None?
    ensures Submit(Submit(st, reply, now).state, again, later).alert == SelectFirst
  {
  }

  /**
   * The form's submit event. The plan `<select>` is `required` and its first
   * option has the empty value, so the browser's form validation blocks the
   * submit while no plan is chosen and `handleSubmit` does not run.
   */
  function FormSubmit(st: EditorState, reply: UpdateReply, now: int): (r: Option<SubmitStep>)
    ensures r.None? <==> st.form.planId == ""
    ensures r.Some? ==> r.value == Submit(st, reply, now)
  {
    if st.form.planId == "" then None else Some(Submit(st, reply, now))
  }

  /** No update request leaving the form ever carries an empty plan. */
  lemma FormNeverPostsEmptyPlan(st: EditorState, reply: UpdateReply, now: int)
    requires FormSubmit(st, reply, now).Some? && FormSubmit(st, reply, now).value.request.Some?
    ensures FormSubmit(st, reply, now).value.request.value.planId != ""
    ensures FormSubmit(st, reply, now).value.request.value.planId == st.form.planId
  {
  }

  /**
   * Selecting a member and submitting the form straight away is blocked when
   * the member has no plan; otherwise it posts that member's id, their plan
   * and no reason, with the expiry the form started from.
   */
  lemma SelectThenSubmit(st: EditorState, m: Member, now: int, reply: UpdateReply, later: int)
    requires !HasEndDate(m) || m.endDate.value.parsed.Instant?
    ensures var step := FormSubmit(SelectMember(st, m, now), reply, later);
      && (step.None? <==> m.planId.GetOr("") == "")
      && (step.Some? ==>
        && step.value.request.Some?
        && step.value.request.value.memberId == m.id
        && step.value.request.value.planId == m.planId.value
        && step.value.request.value.reason.None?
        && step.value.request.value.newExpiryMs == (if HasEndDate(m) then m.endDate.value.parsed.ms else now))
  {
  }

  // ---------------------------------------------------------------------------
  // Membership badge

  /** `Math.ceil` of the days to the end date: a whole number, or `NaN` for an unparseable date. */
  datatype DayCount = Days(n: int) | NotANumber

  /** The badge `getMembershipStatus` shows for a member. */
  datatype Standing = Unknown | Expired | DaysLeft(days: nat) | Active | Other(status: Option<string>)
  {
    /** The badge text; `None` when the member has no `membership_status` at all. */
    function Text(): Option<string> {
      match this
      case Unknown => Some("Unknown")
      case Expired => Some("Expired")
      case DaysLeft(d) => Some(Decimal(d) + " days left")
      case Active => Some("Active")
      case Other(status) => status
    }

    function Color(): string {
      match this
      case Unknown => "bg-gray-100 text-gray-800"
      case Expired => "bg-red-100 text-red-800"
      case DaysLeft(_) => "bg-yellow-100 text-yellow-800"
      case Active => "bg-green-100 text-green-800"
      case Other(_) => "bg-gray-100 text-gray-800"
    }
  }

  function MembershipStanding(member: Option<Member>, days: DayCount): (s: Standing)
    ensures s == Unknown <==> member.None? || !HasEndDate(member.value)
    ensures s.Other? <==> member.Some? && HasEndDate(member.value) && member.value.membershipStatus != Some("active")
    ensures s.Other? ==> s.status == member.value.membershipStatus
    ensures s.DaysLeft? ==> days == Days(s.days) && s.days <= 7
    ensures s == Expired ==> days.Days? && days.n < 0
    ensures s == Active ==> days.NotANumber? || days.n > 7
  {
    if member.None? || !HasEndDate(member.value) then Unknown
    else if member.value.membershipStatus == Some("active") then
      match days
      case NotANumber => Active
      case Days(n) => if n < 0 then Expired else if n <= 7 then DaysLeft(n) else Active
    else Other(member.value.membershipStatus)
  }

  /**
   * For an active member with an end date and a whole day count, the three
   * bands cover every count and never overlap: below zero it is expired, up
   * to a week it counts down, beyond that it is active.
   */
  lemma ActiveBandsPartition(m: Member, n: int)
    requires HasEndDate(m) && m.membershipStatus == Some("active")
    ensures var s := MembershipStanding(Some(m), Days(n));
      && (s == Expired <==> n < 0)
      && (s.DaysLeft? <==> 0 <= n <= 7)
      && (s == Active <==> n > 7)
  {
  }

  /** The countdown text starts with the day count written in decimal, so it reads back as that count. */
  lemma DaysLeftTextReadsBack(d: nat)
    requires d <= 7
    ensures var t := DaysLeft(d).Text().value;
      |t| == 11 && AllDigits(t[..1]) && ValueOf(t[..1]) == d && t[1..] == " days left"
  {
    assert Decimal(d) == [DigitChar(d)];
    var t := Decimal(d) + " days left";
    assert t[..1] == Decimal(d);
  }

  /** An unparseable end date on an active member shows as active: the `NaN` comparisons are both false. */
  lemma NaNDaysShowActive(m: Member)
    requires HasEndDate(m) && m.membershipStatus == Some("active")
    ensures MembershipStanding(Some(m), NotANumber) == Active
  {
  }
}
