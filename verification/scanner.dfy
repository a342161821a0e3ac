/**
 * MobileQRScanner.js: the member's attendance screen. The handlers are
 * modelled as steps from the screen state and their inputs (the stored user
 * record, the clock reading, the server's reply) to the next state, the
 * request they send and the notice they pop up.
 *
 * `attendanceStatus` is modelled by its `status` field alone: `None` stands
 * for both a status that has not loaded and one without a `status` field,
 * which every use in the component treats alike.
 */
module Scanner {
  import opened Wrappers
  import opened Text

  const CheckedIn := "checked_in"
  const NotCheckedIn := "not_checked_in"
  const CheckedOut := "checked_out"

  const MemberIdMissing := "Member ID not found. Please log in again."
  const InactiveMembership := "Your membership is not active. Please contact the gym staff."
  const ScanFailed := "Failed to mark attendance. Please try again."

  datatype Action = CheckIn | CheckOut {
    /** The value sent as `action`. */
    function WireName(): string {
      match this
      case CheckIn => "check-in"
      case CheckOut => "check-out"
    }
  }

  /** The action a scan sends: check out exactly when the member is checked in. */
  function NextAction(status: Option<string>): (a: Action)
    ensures a == CheckOut <==> status == Some(CheckedIn)
  {
    if status == Some(CheckedIn) then CheckOut else CheckIn
  }

  /** `/^\d{6}$/`: exactly six ASCII digits. */
  predicate IsNumericCode(code: string) {
    |code| == 6 && AllDigits(code)
  }

  /** Which handler a manual entry goes to. */
  datatype Route = NumericCode | QrPayload

  /** The handler a manual entry is routed to, or `None` when it trims to nothing. */
  function ManualRoute(input: string): (r: Option<Route>)
    ensures r.None? <==> forall k :: 0 <= k < |input| ==> IsJsSpace(input[k])
    ensures r == Some(NumericCode) <==> IsNumericCode(Strip(input, IsJsSpace))
  {
    var code := Strip(input, IsJsSpace);
    if code == "" then None
    else if IsNumericCode(code) then Some(NumericCode)
    else Some(QrPayload)
  }

  /** Whitespace around an entry changes neither its route nor the code sent. */
  lemma RouteIgnoresPadding(left: string, code: string, right: string)
    requires forall k :: 0 <= k < |left| ==> IsJsSpace(left[k])
    requires forall k :: 0 <= k < |right| ==> IsJsSpace(right[k])
    requires code != [] && !IsJsSpace(code[0]) && !IsJsSpace(code[|code| - 1])
    ensures Strip(left + code + right, IsJsSpace) == code
    ensures ManualRoute(left + code + right) == ManualRoute(code)
  {
    StripPadded(left, code, right, IsJsSpace);
    StripNothing(code, IsJsSpace);
  }

  /**
   * What `JSON.parse(localStorage.getItem('user') || '{}')` yields: nothing
   * stored (read as `{}`), a value that throws when parsed or read (bad JSON,
   * or `null`), or a record with its two optional id fields.
   */
  datatype StoredUser =
    | NoUser
    | Unreadable(message: string)
    | UserRecord(id: Option<string>, memberId: Option<string>)

  datatype Lookup = Found(memberId: string) | Failed(message: string)

  /** `userData.id || userData.member_id`, or the error thrown when neither is set. */
  function ResolveMemberId(user: StoredUser): (r: Lookup)
    ensures r.Found? ==> r.memberId != ""
    ensures r.Found? <==> user.UserRecord? && (user.id.GetOr("") != "" || user.memberId.GetOr("") != "")
    ensures r.Found? && user.id.GetOr("") != "" ==> r.memberId == user.id.value
    ensures r.Found? && user.id.GetOr("") == "" ==> r.memberId == user.memberId.value
    ensures user.Unreadable? ==> r == Failed(user.message)
    ensures !user.Unreadable? && r.Failed? ==> r.message == MemberIdMissing
  {
    match user
    case NoUser => Failed(MemberIdMissing)
    case Unreadable(message) => Failed(message)
    case UserRecord(id, memberId) =>
      if id.GetOr("") != "" then Found(id.value)
      else if memberId.GetOr("") != "" then Found(memberId.value)
      else Failed(MemberIdMissing)
  }

  /** The body posted to `/attendance/scan`, the same from both handlers. */
  datatype ScanRequest = ScanRequest(memberId: string, qrCode: string, timestamp: string, action: string)

  /**
   * The error shown for a failed scan: the fixed inactive-membership text when
   * the server's detail mentions `membership_status`, else the detail, else
   * the error's message, else the fixed fallback.
   */
  function ErrorText(detail: Option<string>, message: string): (r: string)
    ensures r != ""
    ensures detail.Some? && Contains(detail.value, "membership_status") ==> r == InactiveMembership
    ensures detail.Some? && detail.value != "" && !Contains(detail.value, "membership_status") ==> r == detail.value
    ensures detail.GetOr("") == "" && message != "" ==> r == message
    ensures detail.GetOr("") == "" && message == "" ==> r == ScanFailed
  {
    if detail.Some? && Contains(detail.value, "membership_status") then InactiveMembership
    else if detail.GetOr("") != "" then detail.value
    else if message != "" then message
    else ScanFailed
  }

  /** The status refresh after an accepted scan; a failed refresh leaves the old status. */
  datatype Refresh = RefreshFailed | Refreshed(status: Option<string>)

  /** The server's answer to a scan request. */
  datatype ServerReply =
    | Accepted(refresh: Refresh)
    | Rejected(detail: Option<string>, message: string)

  datatype ScannerState = ScannerState(status: Option<string>, scanning: bool, error: string, manualCode: string)

  /** One run of a scan handler, and of the manual-entry submit around it. */
  datatype Step = Step(state: ScannerState, route: Option<Route>, request: Option<ScanRequest>, notice: Option<string>)

  function SuccessNotice(action: Action): string {
    match action
    case CheckIn => "Successfully checked in! \U{1F389}"
    case CheckOut => "Successfully checked out! \U{1F44B}"
  }

  /**
   * `handleQRScan` / `handleNumericCode` with the code to send: resolve the
   * member, post the scan, refresh the status on success and show the error
   * text on failure. The scanning flag is back to false when it ends.
   */
  function Scan(st: ScannerState, code: string, user: StoredUser, now: string, reply: ServerReply): (s: Step)
    ensures !s.state.scanning && s.state.manualCode == st.manualCode && s.route.None?
    ensures s.request.Some? <==> ResolveMemberId(user).Found?
    ensures s.request.Some? ==> s.request.value == ScanRequest(ResolveMemberId(user).memberId, code, now, NextAction(st.status).WireName())
    ensures s.state.error == "" <==> s.request.Some? && reply.Accepted?
    ensures s.notice.Some? <==> s.request.Some? && reply.Accepted?
    ensures s.notice.Some? ==> s.notice.value == SuccessNotice(NextAction(st.status))
    ensures s.notice.Some? && reply.refresh.Refreshed? ==> s.state.status == reply.refresh.status
    ensures !(s.notice.Some? && reply.refresh.Refreshed?) ==> s.state.status == st.status
    ensures ResolveMemberId(user).Failed? ==> s.state.error == ErrorText(None, ResolveMemberId(user).message)
    ensures s.request.Some? && reply.Rejected? ==> s.state.error == ErrorText(reply.detail, reply.message)
  {
    var action := NextAction(st.status);
    match ResolveMemberId(user)
    case Failed(message) =>
      Step(st.(scanning := false, error := ErrorText(None, message)), None, None, None)
    case Found(memberId) =>
      var request := ScanRequest(memberId, code, now, action.WireName());
      match reply
      case Rejected(detail, message) =>
        Step(st.(scanning := false, error := ErrorText(detail, message)), None, Some(request), None)
      case Accepted(refresh) =>
        var status := if refresh.Refreshed? then refresh.status else st.status;
        Step(st.(status := status, scanning := false, error := ""), None, Some(request), Some(SuccessNotice(action)))
  }

  /**
   * `handleManualSubmit`: an entry that trims to nothing does nothing at all;
   * any other is routed by its trimmed text, sent as that text, and the
   * field is cleared afterwards.
   */
  function ManualSubmit(st: ScannerState, user: StoredUser, now: string, reply: ServerReply): (s: Step)
    ensures ManualRoute(st.manualCode).None? ==> s == Step(st, None, None, None)
    ensures ManualRoute(st.manualCode).Some? ==>
      && s.route == ManualRoute(st.manualCode)
      && s.state.manualCode == ""
      && !s.state.scanning
      && (s.request.Some? ==> s.request.value.qrCode == Strip(st.manualCode, IsJsSpace) != "")
    ensures ManualRoute(st.manualCode).Some? ==>
      var handled := Scan(st, Strip(st.manualCode, IsJsSpace), user, now, reply);
      && s.state == handled.state.(manualCode := "")
      && s.request == handled.request
      && s.notice == handled.notice
  {
    var route := ManualRoute(st.manualCode);
    if route.None? then Step(st, None, None, None)
    else
      var step := Scan(st, Strip(st.manualCode, IsJsSpace), user, now, reply);
      step.(state := step.state.(manualCode := ""), route := route)
  }

  /** Both routes post the same request: the route decides nothing about what is sent. */
  lemma RoutesSendAlike(st: ScannerState, user: StoredUser, now: string, reply: ServerReply)
    requires ManualRoute(st.manualCode).Some?
    ensures ManualSubmit(st, user, now, reply).request
      == Scan(st, Strip(st.manualCode, IsJsSpace), user, now, reply).request
    ensures ManualSubmit(st, user, now, reply).request.Some? ==>
      ManualSubmit(st, user, now, reply).request.value.action == NextAction(st.status).WireName()
  {
  }

  /** The submit button is disabled while scanning or while the entry trims to nothing. */
  predicate SubmitDisabled(st: ScannerState) {
    st.scanning || Strip(st.manualCode, IsJsSpace) == ""
  }

  /** An enabled submit button always leads to a routed entry and a cleared field. */
  lemma EnabledSubmitIsHandled(st: ScannerState, user: StoredUser, now: string, reply: ServerReply)
    requires !SubmitDisabled(st)
    ensures ManualSubmit(st, user, now, reply).route.Some?
    ensures ManualSubmit(st, user, now, reply).state.manualCode == ""
  {
  }

  /** The status card: `getStatusDisplay` without its time-dependent message line. */
  datatype StatusDisplay = StatusDisplay(icon: string, title: string, color: string, action: Action)

  function StatusDisplayFor(status: Option<string>): (d: Option<StatusDisplay>)
    ensures d.Some? <==> status in {Some(NotCheckedIn), Some(CheckedIn), Some(CheckedOut)}
  {
    match status
    case None => None
    case Some(s) =>
      if s == NotCheckedIn then
        Some(StatusDisplay("\U{1F4F1}", "Ready to Check In", "bg-blue-50 border-blue-200 text-blue-800", CheckIn))
      else if s == CheckedIn then
        Some(StatusDisplay("\U{2705}", "You're Checked In!", "bg-green-50 border-green-200 text-green-800", CheckOut))
      else if s == CheckedOut then
        Some(StatusDisplay("\U{1F44B}", "Workout Completed", "bg-purple-50 border-purple-200 text-purple-800", CheckIn))
      else None
  }

  /** Whenever a status card is shown, the action it suggests is the one the next scan sends. */
  lemma DisplayAgreesWithScan(status: Option<string>)
    ensures StatusDisplayFor(status).Some? ==> StatusDisplayFor(status).value.action == NextAction(status)
    ensures StatusDisplayFor(status).None? ==> NextAction(status) == CheckIn
  {
  }

  /** The "Your next action" hint under the instructions. */
  function NextActionHint(display: StatusDisplay): (hint: string)
    ensures display.action == CheckIn ==> Contains(hint, "CHECK IN")
    ensures display.action == CheckOut ==> Contains(hint, "CHECK OUT")
  {
    if display.action == CheckIn then
      ContainsMiddle("Ready to ", "CHECK IN", " for your workout");
      "Ready to " + "CHECK IN" + " for your workout"
    else
      ContainsMiddle("Don't forget to ", "CHECK OUT", " when leaving");
      "Don't forget to " + "CHECK OUT" + " when leaving"
  }
}
