/**
 * The contact page: its eager validity check, the four-state submission
 * lifecycle and the submit handler.
 *
 * The request is abstracted into the payload the handler sends, and everything
 * `fetch` can bring back into an `Outcome` given to the handler as input.
 */
module ContactPage {
  import opened Wrappers
  import opened JsText
  import ContactRoute

  datatype SubmitState = Idle | Submitting | Success(message: string) | Error(message: string)

  const MinNameLength := 2
  const MinMessageLength := 10

  const Thanks := "Thanks for reaching out!"
  const FailedToSubmit := "Failed to submit. Please try again."
  const SomethingWentWrong := "Something went wrong."

  /**
   * `isValid`: trimmed name of at least 2 units, the email as typed (NOT
   * trimmed) matching the same pattern the endpoint uses, trimmed message of
   * at least 10 units.
   */
  predicate FormValid(name: JsString, email: JsString, message: JsString): (r: bool)
    ensures r ==> |name| >= MinNameLength && |message| >= MinMessageLength
  {
    && |Trim(name)| >= MinNameLength
    && ContactRoute.IsValidEmail(email)
    && |Trim(message)| >= MinMessageLength
  }

  /** The JSON request body `{ name, email, message }`, holding the raw field values. */
  datatype Payload = Payload(name: JsString, email: JsString, message: JsString)

  /**
   * The two properties of the parsed reply that the handler reads,
   * `data?.message` and `data?.error`; `None` when absent or null.
   */
  datatype ReplyData = ReplyData(message: Option<string>, error: Option<string>)

  /**
   * How the awaited request ends: a response with `res.ok` and its body
   * (`None` when `res.json()` fails, which the handler turns into `{}`), or an
   * exception thrown by `fetch` whose `message` is `reason` (`""` when it has
   * none).
   */
  datatype Outcome =
    | Replied(ok: bool, data: Option<ReplyData>)
    | Threw(reason: string)

  /** JavaScript's `v || fallback` on an optional string: `""` is falsy too. */
  function OrElse(v: Option<string>, fallback: string): (r: string)
    ensures v.Some? && v.value != "" ==> r == v.value
    ensures !(v.Some? && v.value != "") ==> r == fallback
    ensures r != "" <==> fallback != "" || (v.Some? && v.value != "")
  {
    if v.Some? && v.value != "" then v.value else fallback
  }

  /** The state the handler's `catch` block sets: `err?.message || "Something went wrong."`. */
  function Caught(reason: string): (s: SubmitState)
    ensures s.Error? && s.message != ""
    ensures reason != "" ==> s == Error(reason)
    ensures reason == "" ==> s == Error(SomethingWentWrong)
  {
    Error(OrElse(Some(reason), SomethingWentWrong))
  }

  /**
   * The state the handler ends in. A response that is not ok is thrown as
   * `new Error(data?.error || "Failed to submit. Please try again.")` and lands
   * in the same `catch` as an exception from `fetch`.
   */
  function Settle(outcome: Outcome): (s: SubmitState)
    ensures s.Success? || s.Error?
    ensures s.Error? ==> s.message != ""
    ensures s.Success? <==> outcome.Replied? && outcome.ok
  {
    match outcome
    case Threw(reason) => Caught(reason)
    case Replied(ok, data) =>
      var d := data.GetOr(ReplyData(None, None));
      if !ok then Caught(OrElse(d.error, FailedToSubmit))
      else Success(d.message.GetOr(Thanks))
  }

  /** The texts the user sees after each kind of outcome. */
  lemma {:induction false} SettleMessages(outcome: Outcome)
    ensures outcome.Threw? ==>
      Settle(outcome) == Error(if outcome.reason != "" then outcome.reason else SomethingWentWrong)
    ensures outcome.Replied? && outcome.data.None? ==>
      Settle(outcome) == if outcome.ok then Success(Thanks) else Error(FailedToSubmit)
    ensures outcome.Replied? && outcome.data.Some? && outcome.ok ==>
      Settle(outcome) == Success(outcome.data.value.message.GetOr(Thanks))
    ensures outcome.Replied? && outcome.data.Some? && !outcome.ok ==>
      Settle(outcome) == Error(OrElse(outcome.data.value.error, FailedToSubmit))
  {
    match outcome
    case Threw(_) =>
    case Replied(ok, data) =>
      // The thrown text is never empty, so the catch block's fallback never
      // replaces it.
      assert FailedToSubmit != "";
  }

  /** The page component's state: the three field values and the submission state. */
  class ContactForm {
    var name: JsString
    var email: JsString
    var message: JsString
    var state: SubmitState

    constructor ()
      ensures name == [] && email == [] && message == [] && state == Idle
    {
      name, email, message := [], [], [];
      state := Idle;
    }

    predicate IsValid()
      reads this
    {
      FormValid(name, email, message)
    }

    /** The submit button's `disabled` attribute. */
    predicate SubmitDisabled(): (r: bool)
      reads this
      ensures state == Submitting ==> r
      ensures state != Submitting ==> (r <==> !IsValid())
    {
      !IsValid() || state == Submitting
    }

    /** The name input's `onChange`. */
    method EditName(v: JsString)
      modifies this
      ensures name == v && email == old(email) && message == old(message) && state == old(state)
    {
      name := v;
    }

    /** The email input's `onChange`. */
    method EditEmail(v: JsString)
      modifies this
      ensures email == v && name == old(name) && message == old(message) && state == old(state)
    {
      email := v;
    }

    /** The message textarea's `onChange`. */
    method EditMessage(v: JsString)
      modifies this
      ensures message == v && name == old(name) && email == old(email) && state == old(state)
    {
      message := v;
    }

    /**
     * `onSubmit` up to the awaited request: rejected (nothing sent, nothing
     * changed) exactly when the button is disabled; otherwise the state becomes
     * `Submitting` and the raw field values are sent. Once a request is out,
     * the button is disabled, so no second request leaves until it settles.
     */
    method BeginSubmit() returns (sent: Option<Payload>)
      modifies this
      ensures old(SubmitDisabled()) ==> sent == None && unchanged(this)
      ensures !old(SubmitDisabled()) ==>
        && sent == Some(Payload(old(name), old(email), old(message)))
        && state == Submitting
        && name == old(name) && email == old(email) && message == old(message)
      ensures sent.Some? ==> SubmitDisabled()
    {
      if !IsValid() || state.Submitting? {
        return None;
      }
      state := Submitting;
      sent := Some(Payload(name, email, message));
    }

    /**
     * `onSubmit` after the awaited request: the state settles on the outcome,
     * and the fields are cleared exactly when it settles on `Success`.
     */
    method FinishSubmit(outcome: Outcome)
      modifies this
      ensures state == Settle(outcome)
      ensures state.Success? ==> name == [] && email == [] && message == []
      ensures !state.Success? ==> name == old(name) && email == old(email) && message == old(message)
    {
      state := Settle(outcome);
      if state.Success? {
        name, email, message := [], [], [];
      }
    }

    /**
     * A whole `onSubmit` whose request ends with `outcome` while the user
     * edits nothing. After an accepted submit the state is `Success` or
     * `Error`, never `Submitting`.
     */
    method Submit(outcome: Outcome) returns (sent: Option<Payload>)
      modifies this
      ensures old(SubmitDisabled()) ==> sent == None && unchanged(this)
      ensures !old(SubmitDisabled()) ==>
        && sent == Some(Payload(old(name), old(email), old(message)))
        && state == Settle(outcome)
        && (state.Success? ==> name == [] && email == [] && message == [])
        && (state.Error? ==> name == old(name) && email == old(email) && message == old(message))
    {
      sent := BeginSubmit();
      if sent.Some? {
        FinishSubmit(outcome);
      }
    }
  }
}
