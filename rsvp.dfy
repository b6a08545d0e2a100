/**
 * The RSVP dialog of components/sections/guest-list.tsx as a record of component
 * state and pure transitions: look the guest up, fill in the form, submit once.
 * Network calls are outside the model: the lookup receives the fetched guest list
 * and the submission receives whether the store accepted the request.
 */
module Rsvp {
  import opened Wrappers
  import opened Text
  import opened GuestModel
  import opened Roster
  import opened Matcher

  /** The form: a guest record without id and timestamps. */
  datatype Form = Form(
    name: string,
    role: string,
    email: string,
    contact: string,
    message: string,
    allowedGuests: int,
    companions: seq<Companion>,
    tableNumber: string,
    isVip: bool,
    status: string,
    addedBy: string)

  const EmptyForm := Form("", "", "", "", "", 1, [], "", false, "pending", "")

  datatype RsvpError =
    | EnterName
    | EnterFullName
    | NotFound
    | SelectAttendance
    | MissingCompanionNames(required: nat)
    | SubmitFailed

  datatype RsvpState = RsvpState(
    guests: seq<Guest>,
    showModal: bool,
    query: string,
    selected: Option<Guest>,
    form: Form,
    hasResponded: bool,
    error: Option<RsvpError>,
    success: bool)

  /** The body of the update request that the submission sends. */
  datatype RsvpRequest = RsvpRequest(
    id: string,
    name: string,
    role: string,
    email: string,
    contact: string,
    message: string,
    allowedGuests: int,
    companions: seq<Companion>,
    status: string)

  /** The dialog before anything is typed, over a fetched guest list. */
  function Initial(guests: seq<Guest>): RsvpState {
    RsvpState(guests, false, "", None, EmptyForm, false, None, false)
  }

  predicate HasAnswered(status: string) {
    status == "confirmed" || status == "declined"
  }

  /** The form loaded from a matched guest, with the `||` defaults of the page. */
  function FormFromGuest(g: Guest): (f: Form)
    ensures f.name == g.name && f.email == g.email && f.message == g.message
    ensures f.allowedGuests == (if g.allowedGuests == 0 then 1 else g.allowedGuests)
    ensures f.status == (if g.status == "" then "pending" else g.status)
    ensures f.companions == g.companions
    ensures f.role == g.role && f.contact == g.contact && f.tableNumber == g.tableNumber
    ensures f.isVip == g.isVip && f.addedBy == g.addedBy
  {
    Form(g.name, g.role, g.email, g.contact, g.message,
         if g.allowedGuests == 0 then 1 else g.allowedGuests,
         g.companions, g.tableNumber, g.isVip,
         if g.status == "" then "pending" else g.status,
         g.addedBy)
  }

  /** `handleConfirmRSVP`: validate the typed name, then look the guest up. */
  function ConfirmRsvp(st: RsvpState): RsvpState {
    var st := st.(error := None);
    if IsBlank(st.query) then st.(error := Some(EnterName))
    else if |Trim(st.query)| < 3 then st.(error := Some(EnterFullName))
    else match MatchGuest(st.query, st.guests)
      case None => st.(error := Some(NotFound))
      case Some(k) =>
        var g := st.guests[k];
        st.(selected := Some(g), form := FormFromGuest(g), hasResponded := HasAnswered(g.status))
  }

  /**
   * The lookup refuses a name that is blank or shorter than three characters once
   * trimmed, and a name no guest matches, leaving the selection as it was.
   */
  lemma ConfirmRsvpRefuses(st: RsvpState)
    ensures var r := ConfirmRsvp(st);
      && r.guests == st.guests && r.query == st.query
      && (IsBlank(st.query) ==> r.error == Some(EnterName) && r.selected == st.selected)
      && (!IsBlank(st.query) && |Trim(st.query)| < 3 ==> r.error == Some(EnterFullName) && r.selected == st.selected)
      && (|Trim(st.query)| >= 3 && MatchGuest(st.query, st.guests).None? ==>
            r.error == Some(NotFound) && r.selected == st.selected)
  {
  }

  /**
   * Otherwise it selects the guest the matcher finds, loads the form, and marks it
   * answered exactly when the stored status is `confirmed` or `declined`.
   */
  lemma ConfirmRsvpSelects(st: RsvpState)
    requires |Trim(st.query)| >= 3 && MatchGuest(st.query, st.guests).Some?
    ensures var k := MatchGuest(st.query, st.guests).value;
      && k < |st.guests|
      && var r := ConfirmRsvp(st);
      && r.error.None?
      && r.selected == Some(st.guests[k])
      && r.form == FormFromGuest(st.guests[k])
      && (r.hasResponded <==> st.guests[k].status == "confirmed" || st.guests[k].status == "declined")
  {
    assert !IsBlank(st.query);
  }

  /** The companion-sync effect: size the slots to the selected guest's stored allowance. */
  function SyncEffect(st: RsvpState): RsvpState {
    match st.selected
    case None => st
    case Some(g) => st.(form := st.form.(companions := Resized(st.form.companions, g.allowedGuests - 1)))
  }

  /**
   * After a successful lookup and the effect that follows it, the form holds exactly
   * `Math.max(0, allowedGuests - 1)` companion slots, the guest's stored companions
   * first and blank ones after.
   */
  lemma ConfirmThenSync(st: RsvpState)
    requires |Trim(st.query)| >= 3 && MatchGuest(st.query, st.guests).Some?
    ensures var k := MatchGuest(st.query, st.guests).value;
      k < |st.guests| &&
      var g := st.guests[k];
      var r := SyncEffect(ConfirmRsvp(st));
      && |r.form.companions| == Max0(g.allowedGuests - 1)
      && (forall i :: 0 <= i < |r.form.companions| && i < |g.companions| ==> r.form.companions[i] == g.companions[i])
      && (forall i :: |g.companions| <= i < |r.form.companions| ==> r.form.companions[i] == BlankCompanion)
  {
    ConfirmRsvpSelects(st);
  }

  /** The effect runs again whenever it writes the companions; its second run changes nothing. */
  lemma SyncEffectIdempotent(st: RsvpState)
    ensures SyncEffect(SyncEffect(st)) == SyncEffect(st)
  {
    if st.selected.Some? {
      ResizedIdempotent(st.form.companions, st.selected.value.allowedGuests - 1);
    }
  }

  /** The "Yes!" and "Sorry" buttons: the status becomes `"confirmed"` or `"declined"`, nothing else changes. */
  function ChooseAttendance(st: RsvpState, attending: bool): (r: RsvpState)
    ensures r.form.status == (if attending then "confirmed" else "declined")
    ensures r.form.(status := st.form.status) == st.form
    ensures r.(form := st.form) == st
  {
    st.(form := st.form.(status := if attending then "confirmed" else "declined"))
  }

  /** `handleFormChange` on the message field: only the message changes. */
  function SetMessage(st: RsvpState, message: string): (r: RsvpState)
    ensures r.form.message == message
    ensures r.form.(message := st.form.message) == st.form
    ensures r.(form := st.form) == st
  {
    st.(form := st.form.(message := message))
  }

  /** `handleFormChange` on the e-mail field: only the e-mail changes. */
  function SetEmail(st: RsvpState, email: string): (r: RsvpState)
    ensures r.form.email == email
    ensures r.form.(email := st.form.email) == st.form
    ensures r.(form := st.form) == st
  {
    st.(form := st.form.(email := email))
  }

  datatype CompanionField = NameField | RelationshipField

  /** `handleCompanionChange(index, field, value)`, called from a rendered companion slot. */
  function SetCompanion(st: RsvpState, index: nat, field: CompanionField, value: string): (r: RsvpState)
    requires index < |st.form.companions|
    ensures |r.form.companions| == |st.form.companions|
    ensures forall i :: 0 <= i < |r.form.companions| && i != index ==> r.form.companions[i] == st.form.companions[i]
    ensures field == NameField ==>
      r.form.companions[index] == st.form.companions[index].(name := value)
    ensures field == RelationshipField ==>
      r.form.companions[index] == st.form.companions[index].(relationship := value)
  {
    var c := st.form.companions[index];
    var c' := if field == NameField then c.(name := value) else c.(relationship := value);
    st.(form := st.form.(companions := st.form.companions[index := c']))
  }

  predicate SomeNameBlank(cs: seq<Companion>) {
    exists i :: 0 <= i < |cs| && IsBlank(cs[i].name)
  }

  /** The checks before sending: an attendance answer, and every companion named when attending with others. */
  function Validate(g: Guest, f: Form): Option<RsvpError> {
    if f.status == "" then Some(SelectAttendance)
    else if f.status == "confirmed" && g.allowedGuests > 1 && SomeNameBlank(f.companions) then
      Some(MissingCompanionNames(|f.companions|))
    else None
  }

  /** The request body: the stored allowance, and companions only for a guest who attends. */
  function Request(g: Guest, f: Form): RsvpRequest {
    RsvpRequest(g.id, f.name, if f.role == "" then "Guest" else f.role,
                f.email, f.contact, f.message, g.allowedGuests,
                if f.status == "confirmed" then f.companions else [],
                f.status)
  }

  /**
   * `handleSubmitRSVP`: with no guest selected nothing happens; a failed check sets its
   * error and sends nothing; otherwise the request is sent, and `storeOk` says whether
   * the store took it.
   */
  function SubmitRsvp(st: RsvpState, storeOk: bool): (RsvpState, Option<RsvpRequest>) {
    match st.selected
    case None => (st, None)
    case Some(g) =>
      match Validate(g, st.form)
      case Some(e) => (st.(error := Some(e)), None)
      case None =>
        var st' := st.(error := None, success := false);
        (if storeOk then st'.(success := true, hasResponded := true) else st'.(error := Some(SubmitFailed)),
         Some(Request(g, st.form)))
  }

  /**
   * The submission is refused exactly when the status is empty, or when an attending
   * guest allowed more than one seat left a companion name blank; `"pending"` passes.
   */
  lemma SubmitRefusedIff(st: RsvpState, storeOk: bool)
    requires st.selected.Some?
    ensures var g := st.selected.value;
      SubmitRsvp(st, storeOk).1.None? <==>
        (st.form.status == ""
         || (st.form.status == "confirmed" && g.allowedGuests > 1
             && exists i :: 0 <= i < |st.form.companions| && Trim(st.form.companions[i].name) == []))
  {
  }

  /**
   * What is sent: the selected guest's id and stored allowance (not the form's),
   * companions only when attending, role `"Guest"` when the form has none, and the
   * form's own status, `"pending"` included.
   */
  lemma SubmitPayload(st: RsvpState, storeOk: bool)
    requires st.selected.Some? && Validate(st.selected.value, st.form).None?
    ensures var (r, req) := SubmitRsvp(st, storeOk);
      && req.Some?
      && req.value.id == st.selected.value.id
      && req.value.allowedGuests == st.selected.value.allowedGuests
      && req.value.status == st.form.status && st.form.status != ""
      && (st.form.status == "confirmed" ==> req.value.companions == st.form.companions)
      && (st.form.status != "confirmed" ==> req.value.companions == [])
      && req.value.role != ""
      && (st.form.role != "" ==> req.value.role == st.form.role)
      && (r.hasResponded <==> storeOk || st.hasResponded)
  {
  }

  /** A pending answer is accepted by the checks. */
  lemma PendingIsSent(st: RsvpState, storeOk: bool)
    requires st.selected.Some? && st.form.status == "pending"
    ensures SubmitRsvp(st, storeOk).1 == Some(Request(st.selected.value, st.form))
  {
  }

  /** Declining is always sent, as `"declined"` and without companions. */
  lemma DeclineIsSent(st: RsvpState, storeOk: bool)
    requires st.selected.Some?
    ensures var req := SubmitRsvp(ChooseAttendance(st, false), storeOk).1;
      req.Some? && req.value.status == "declined" && req.value.companions == []
  {
  }

  /**
   * Typing a message or an e-mail never changes whether the answer is sent, and what
   * is sent carries the typed text.
   */
  lemma TypedFieldsAreSent(st: RsvpState, storeOk: bool, message: string, email: string)
    requires st.selected.Some?
    ensures var req := SubmitRsvp(SetEmail(SetMessage(st, message), email), storeOk).1;
      && (req.Some? <==> SubmitRsvp(st, storeOk).1.Some?)
      && (req.Some? ==> req.value.message == message && req.value.email == email)
  {
  }

  /** The form is offered only to a selected guest who has not answered yet. */
  predicate FormEditable(st: RsvpState) {
    st.selected.Some? && !st.hasResponded
  }

  /** A stored submission closes the form: the gate admits one answer per lookup. */
  lemma SubmitClosesForm(st: RsvpState)
    requires st.selected.Some?
    requires Validate(st.selected.value, st.form).None?
    ensures !FormEditable(SubmitRsvp(st, true).0)
  {
  }

  /** The dialog closing three seconds after a stored answer. */
  function AfterSuccess(st: RsvpState): RsvpState {
    st.(showModal := false, query := "", selected := None, success := false)
  }

  /** `handleCloseModal`: back to the empty dialog; the success flag is not reset. */
  function CloseModal(st: RsvpState): RsvpState {
    st.(showModal := false, selected := None, query := "", form := EmptyForm, hasResponded := false, error := None)
  }

  /** Closing the dialog returns to the initial state over the same guests, whatever happened before. */
  lemma CloseModalResets(st: RsvpState)
    ensures CloseModal(st) == Initial(st.guests).(success := st.success)
    ensures !FormEditable(CloseModal(st))
  {
  }
}
