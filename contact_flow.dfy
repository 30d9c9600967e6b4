/**
 * The page and the endpoint together: what the request carries to the
 * endpoint, what the page reads back from the response, and the properties
 * that only hold of the pair.
 */
module ContactFlow {
  import opened Wrappers
  import opened JsText
  import ContactRoute
  import ContactPage

  /**
   * The body the endpoint parses from `JSON.stringify({ name, email, message })`:
   * an object with all three fields present as strings.
   */
  function Request(p: ContactPage.Payload): (b: ContactRoute.Body)
    ensures b.Obj? && b.name == Some(p.name) && b.email == Some(p.email) && b.message == Some(p.message)
  {
    ContactRoute.Obj(Some(p.name), Some(p.email), Some(p.message))
  }

  /** What the page's `fetch` makes of an endpoint response: `res.ok` and the fields it reads. */
  function Deliver(resp: ContactRoute.Response): (o: ContactPage.Outcome)
    ensures o.Replied? && o.data.Some?
    ensures o.ok <==> 200 <= resp.status < 300
    ensures resp.body.MessageBody? ==> o.data.value == ContactPage.ReplyData(Some(resp.body.message), None)
    ensures !resp.body.MessageBody? ==> o.data.value == ContactPage.ReplyData(None, Some(resp.body.error))
  {
    var data := match resp.body
      case ErrorBody(e) => ContactPage.ReplyData(None, Some(e))
      case ValidationBody(e, _) => ContactPage.ReplyData(None, Some(e))
      case MessageBody(m) => ContactPage.ReplyData(Some(m), None);
    ContactPage.Replied(200 <= resp.status < 300, Some(data))
  }

  /** An email that matches the pattern holds no whitespace, so trimming leaves it alone. */
  lemma ValidEmailTrimsToItself(email: JsString)
    requires ContactRoute.IsValidEmail(email)
    ensures Trim(email) == email
  {
    ContactRoute.EmailShape(email);
    TrimNoWs(email);
  }

  /** The endpoint confirms a request exactly when its trimmed fields pass all three rules. */
  lemma RequestAccepted(p: ContactPage.Payload)
    ensures ContactRoute.Post(Request(p)).status == 200
        <==> ContactRoute.Acceptable(Trim(p.name), Trim(p.email), Trim(p.message))
    ensures ContactRoute.Acceptable(Trim(p.name), Trim(p.email), Trim(p.message)) ==>
      ContactRoute.Post(Request(p)) == ContactRoute.Response(200, ContactRoute.MessageBody(ContactRoute.Received))
    ensures !ContactRoute.Acceptable(Trim(p.name), Trim(p.email), Trim(p.message)) ==>
      ContactRoute.Post(Request(p)).status == 400
      && ContactRoute.Post(Request(p)).body
         == ContactRoute.ValidationBody(ContactRoute.ValidationFailed, ContactRoute.FieldErrors(Trim(p.name), Trim(p.email), Trim(p.message)))
  {
    var body := Request(p);
    assert ContactRoute.Field(body.name) == Trim(p.name);
    assert ContactRoute.Field(body.email) == Trim(p.email);
    assert ContactRoute.Field(body.message) == Trim(p.message);
  }

  /**
   * Whatever the page lets through, the endpoint accepts: the page checks the
   * raw email, the endpoint the trimmed one, and the two agree on valid emails.
   */
  lemma ClientValidImpliesServerAccepts(name: JsString, email: JsString, message: JsString)
    requires ContactPage.FormValid(name, email, message)
    ensures ContactRoute.FieldErrors(Trim(name), Trim(email), Trim(message)) == map[]
    ensures ContactRoute.Post(Request(ContactPage.Payload(name, email, message)))
         == ContactRoute.Response(200, ContactRoute.MessageBody(ContactRoute.Received))
  {
    ValidEmailTrimsToItself(email);
    assert ContactRoute.Acceptable(Trim(name), Trim(email), Trim(message));
    ContactRoute.ErrorsCountViolations(Trim(name), Trim(email), Trim(message));
    RequestAccepted(ContactPage.Payload(name, email, message));
  }

  /**
   * The converse fails: for any unit `x` of `[^\s@]`, the email " x@x.x " is
   * accepted by the endpoint (which trims it) but keeps the page's button
   * disabled (the page tests it as typed).
   */
  lemma ServerAcceptsMoreThanClient(x: CodeUnit)
    requires ContactRoute.InClass(x)
    ensures
      var p := ContactPage.Payload([x, x], [Space, x, At, x, Dot, x, Space], seq(10, _ => x));
      && !ContactPage.FormValid(p.name, p.email, p.message)
      && ContactRoute.Post(Request(p)) == ContactRoute.Response(200, ContactRoute.MessageBody(ContactRoute.Received))
  {
    ContactRoute.EmailExamplesRejected(x, x, x);
    PaddedRequestAccepted(x);
  }

  /** The request half of `ServerAcceptsMoreThanClient`. */
  lemma PaddedRequestAccepted(x: CodeUnit)
    requires ContactRoute.InClass(x)
    ensures
      var p := ContactPage.Payload([x, x], [Space, x, At, x, Dot, x, Space], seq(10, _ => x));
      ContactRoute.Post(Request(p)) == ContactRoute.Response(200, ContactRoute.MessageBody(ContactRoute.Received))
  {
    var p := ContactPage.Payload([x, x], [Space, x, At, x, Dot, x, Space], seq(10, _ => x));
    ContactRoute.EmailExampleAccepted(x, x, x);
    assert p.email == [Space] + [x, At, x, Dot, x] + [Space];
    assert AllWs([Space]);
    PaddedAccepted(p.name, [Space], [x, At, x, Dot, x], p.message);
    RequestAccepted(p);
  }

  /** The endpoint trims the padding off a valid email and accepts it. */
  lemma PaddedAccepted(name: JsString, pad: JsString, bare: JsString, message: JsString)
    requires NoWs(name) && |name| >= ContactRoute.MinNameLength
    requires NoWs(message) && |message| >= ContactRoute.MinMessageLength
    requires AllWs(pad) && ContactRoute.IsValidEmail(bare)
    ensures ContactRoute.Acceptable(Trim(name), Trim(pad + bare + pad), Trim(message))
  {
    TrimSurrounding(pad, bare, pad);
    ValidEmailTrimsToItself(bare);
    TrimNoWs(name);
    TrimNoWs(message);
  }

  /** A submit the page allows always ends in the endpoint's confirmation. */
  lemma ValidSubmitSucceeds(name: JsString, email: JsString, message: JsString)
    requires ContactPage.FormValid(name, email, message)
    ensures ContactPage.Settle(Deliver(ContactRoute.Post(Request(ContactPage.Payload(name, email, message)))))
         == ContactPage.Success(ContactRoute.Received)
  {
    ClientValidImpliesServerAccepts(name, email, message);
    ConfirmationSettlesOnSuccess();
  }

  /** The endpoint's confirmation, as the page reads it. */
  lemma ConfirmationSettlesOnSuccess()
    ensures ContactPage.Settle(Deliver(ContactRoute.Response(200, ContactRoute.MessageBody(ContactRoute.Received))))
         == ContactPage.Success(ContactRoute.Received)
  {
  }

  /** A body the endpoint rejects shows the endpoint's top-level error text. */
  lemma RejectedSubmitShowsValidationFailed(p: ContactPage.Payload)
    requires !ContactRoute.Acceptable(Trim(p.name), Trim(p.email), Trim(p.message))
    ensures ContactPage.Settle(Deliver(ContactRoute.Post(Request(p))))
         == ContactPage.Error(ContactRoute.ValidationFailed)
  {
    RequestAccepted(p);
    ValidationFailureShown(ContactRoute.Post(Request(p)));
  }

  /** A 400 "Validation failed" response, as the page reads it. */
  lemma ValidationFailureShown(r: ContactRoute.Response)
    requires r.status == 400 && r.body.ValidationBody? && r.body.error == ContactRoute.ValidationFailed
    ensures ContactPage.Settle(Deliver(r)) == ContactPage.Error(ContactRoute.ValidationFailed)
  {
    var o := Deliver(r);
    assert !o.ok && o.data.value.error == Some(ContactRoute.ValidationFailed);
    ContactPage.SettleMessages(o);
  }

  /**
   * A submit of the page against the endpoint itself, with no edit while the
   * request is in flight: when the button was enabled, the page ends showing
   * the endpoint's confirmation with every field cleared.
   */
  method SubmitToEndpoint(form: ContactPage.ContactForm) returns (sent: Option<ContactPage.Payload>)
    modifies form
    ensures old(form.SubmitDisabled()) ==> sent == None && unchanged(form)
    ensures !old(form.SubmitDisabled()) ==>
      && sent == Some(ContactPage.Payload(old(form.name), old(form.email), old(form.message)))
      && form.state == ContactPage.Success(ContactRoute.Received)
      && form.name == [] && form.email == [] && form.message == []
  {
    sent := form.BeginSubmit();
    if sent.Some? {
      ValidSubmitSucceeds(sent.value.name, sent.value.email, sent.value.message);
      form.FinishSubmit(Deliver(ContactRoute.Post(Request(sent.value))));
    }
  }
}
