/** The contact endpoint (`iac/lambda_function.py`): `lambda_handler`
    classifies a request into a preflight answer, a rejection (400), a
    failure (500) or a sent message (200), and on the way asks the
    notification topic to publish the message. The clock's timestamp and
    whether the publication succeeds are parameters; decoding the body is
    given as its outcome. */
module ContactLambda {
  import opened Text
  import ContactForm

  /** A JSON value, as far as `.strip()` cares: a string, or anything
      else (a number, null, a list, an object). */
  datatype Value = Str(s: string) | NotText

  /** What `json.loads` makes of the body text; of an object, only the
      three fields the handler reads matter (`None` when absent). */
  datatype Parsed = Invalid | NotObject | Object(name: Option<Value>, email: Option<Value>, message: Option<Value>)

  /** The three fields once stripped. */
  datatype Submission = Submission(name: string, email: string, message: string)

  /** The `body` of the event: null, or a text and what it decodes to. */
  datatype RequestBody = NullBody | Text(parsed: Parsed)

  datatype Event = Event(httpMethod: Option<string>, body: Option<RequestBody>)

  /** The JSON object of a response body, by kind; `ReplyJson` gives its
      fields. */
  datatype Reply =
    | Preflight | NoBody | MissingFields | BadEmail | BadJson | Failed
    | Sent(timestamp: string)

  /** The response headers: only the content type is set. */
  datatype Headers = Headers(contentType: string)

  datatype Response = Response(statusCode: int, headers: Headers, body: Reply)

  /** The publication asked of the notification topic, for a submission
      made at `timestamp`; `Subject` and `NotificationText` give its
      texts. */
  datatype Notification = Notification(timestamp: string, name: string, email: string, message: string)

  /** The response, and the publication asked for on the way, if any. */
  datatype Handled = Handled(response: Response, publishing: Option<Notification>)

  const JsonHeaders := Headers("application/json")

  /** The fields of the JSON body of each reply. */
  function ReplyJson(reply: Reply): map<string, string> {
    match reply
    case Preflight => map["message" := "CORS preflight"]
    case NoBody => map["error" := "No request body provided"]
    case MissingFields => map["error" := "Missing required fields: name, email, and message are all required"]
    case BadEmail => map["error" := "Invalid email address format"]
    case BadJson => map["error" := "Invalid JSON in request body"]
    case Failed => map["error" := "Failed to send message. Please try again later."]
    case Sent(timestamp) => map["message" := "Message sent successfully! Thank you for reaching out.", "timestamp" := timestamp]
  }

  function Answer(statusCode: int, body: Reply): Response {
    Response(statusCode, JsonHeaders, body)
  }

  /** `body.get(key, '').strip()`: a missing field is the empty text, and
      a value that is not text has no `strip` (`None`: the call raises). */
  function Stripped(field: Option<Value>): (r: Option<string>)
    ensures field.None? ==> r == Some("")
    ensures r.Some? ==> r.value == Trim(Py, r.value)
  {
    match field
    case None => Some("")
    case Some(Str(s)) =>
      TrimIdempotent(Py, s);
      Some(Trim(Py, s))
    case Some(NotText) => None
  }

  /** The stripped fields of an object, `None` when one of them raises. */
  function StrippedFields(name: Option<Value>, email: Option<Value>, message: Option<Value>): (r: Option<Submission>)
    ensures r.Some? <==> Stripped(name).Some? && Stripped(email).Some? && Stripped(message).Some?
    ensures r.Some? ==> r.value == Submission(Stripped(name).value, Stripped(email).value, Stripped(message).value)
  {
    match (Stripped(name), Stripped(email), Stripped(message))
    case (Some(n), Some(e), Some(m)) => Some(Submission(n, e, m))
    case _ => None
  }

  /** All three fields are present once stripped. */
  predicate Complete(s: Submission) {
    s.name != "" && s.email != "" && s.message != ""
  }

  /** The email test: an "@" and a "." anywhere. */
  predicate PlausibleEmail(email: string) {
    HasChar(email, '@') && HasChar(email, '.')
  }

  const NotificationHead := "New Contact Form Submission - "
  const NotificationFoot := "\n\n---\nThis message was sent from the contact form on www.terracloud.fr"

  /** The subject of the notification. */
  function Subject(n: Notification): string {
    "Contact Form: Message from " + n.name
  }

  /** The text of the notification. */
  function NotificationText(n: Notification): string {
    Framed(NotificationHead, n, NotificationFoot)
  }

  /** The notification's lines between a first and a last part. */
  function Framed(head: string, n: Notification, foot: string): string {
    head + n.timestamp + "\n\nName: " + n.name + "\nEmail: " + n.email
      + "\n\nMessage:\n" + n.message + foot
  }

  /** The handler once the body has decoded to a JSON object. */
  function HandleFields(fields: Option<Submission>, timestamp: string, published: bool): (r: Handled)
    ensures r.response.headers == JsonHeaders
    ensures r.response.statusCode == 200 || r.response.statusCode == 400 || r.response.statusCode == 500
    ensures r.response.statusCode == 400 ==> r.publishing.None?
  {
    match fields
    case None => Handled(Answer(500, Failed), None)
    case Some(s) =>
      if !Complete(s) then Handled(Answer(400, MissingFields), None)
      else if !PlausibleEmail(s.email) then Handled(Answer(400, BadEmail), None)
      else
        var n := Notification(timestamp, s.name, s.email, s.message);
        if published then Handled(Answer(200, Sent(timestamp)), Some(n))
        else Handled(Answer(500, Failed), Some(n))
  }

  /** `lambda_handler(event, context)` at the time `timestamp`, where
      `published` says whether the topic accepts the message. */
  function LambdaHandler(event: Event, timestamp: string, published: bool): (r: Handled)
    ensures r.response.headers == JsonHeaders
    ensures r.response.statusCode == 200 || r.response.statusCode == 400 || r.response.statusCode == 500
    ensures event.httpMethod == Some("OPTIONS") ==> r.response.statusCode == 200 && r.publishing.None?
    ensures event.httpMethod != Some("OPTIONS") && event.body.None? ==> r.response.statusCode == 400
    ensures r.response.statusCode == 400 ==> r.publishing.None?
  {
    if event.httpMethod == Some("OPTIONS") then
      Handled(Answer(200, Preflight), None)
    else match event.body
      case None => Handled(Answer(400, NoBody), None)
      case Some(NullBody) => Handled(Answer(500, Failed), None)
      case Some(Text(Invalid)) => Handled(Answer(400, BadJson), None)
      case Some(Text(NotObject)) => Handled(Answer(500, Failed), None)
      case Some(Text(Object(name, email, message))) =>
        HandleFields(StrippedFields(name, email, message), timestamp, published)
  }

  /** The stripped fields of the event's body, when it is a JSON object
      whose three fields are text or absent. */
  function Fields(event: Event): Option<Submission> {
    match event.body
    case Some(Text(Object(name, email, message))) => StrippedFields(name, email, message)
    case _ => None
  }

  /** A submission the handler accepts: its fields are all there and the
      email is plausible. */
  predicate Acceptable(event: Event) {
    Fields(event).Some? && Complete(Fields(event).value) && PlausibleEmail(Fields(event).value.email)
  }

  /** A request that is rejected as the client's fault: no body, a body
      that is not JSON, an empty field or an implausible email. */
  predicate Rejected(event: Event) {
    || event.body.None?
    || event.body == Some(Text(Invalid))
    || (Fields(event).Some? && !(Complete(Fields(event).value) && PlausibleEmail(Fields(event).value.email)))
  }

  /** Once the body is an object: a 200 exactly for complete fields with
      a plausible email that get published, a 400 exactly for incomplete
      fields or an implausible email, and a publication asked for exactly
      for complete fields with a plausible email. */
  lemma FieldsClassification(fields: Option<Submission>, timestamp: string, published: bool)
    ensures var r := HandleFields(fields, timestamp, published);
      var ok := fields.Some? && Complete(fields.value) && PlausibleEmail(fields.value.email);
      && (r.response.statusCode == 200 <==> ok && published)
      && (r.response.statusCode == 400 <==> fields.Some? && !ok)
      && (r.publishing.Some? <==> ok)
  {
  }

  /** The classification: a preflight and an accepted submission that is
      published succeed, a rejected request is a 400, and everything else
      (a null body, JSON that is not an object, a field that is not text,
      a failed publication) is a 500. A publication is asked for exactly
      for accepted submissions. */
  lemma Classification(event: Event, timestamp: string, published: bool)
    ensures var r := LambdaHandler(event, timestamp, published);
      var preflight := event.httpMethod == Some("OPTIONS");
      && (r.response.statusCode == 200 <==> preflight || (Acceptable(event) && published))
      && (r.response.statusCode == 400 <==> !preflight && Rejected(event))
      && (r.publishing.Some? <==> !preflight && Acceptable(event))
  {
    match event.body
    case Some(Text(Object(name, email, message))) =>
      FieldsClassification(StrippedFields(name, email, message), timestamp, published);
    case _ =>
  }

  /** Text without white space at its ends is kept by `strip`. */
  lemma StripKeeps(s: string)
    requires s != [] && !IsSpace(Py, s[0]) && !IsSpace(Py, s[|s| - 1])
    ensures Stripped(Some(Str(s))) == Some(s)
  {
    TrimSurrounded(Py, [], s, []);
    assert [] + s + [] == s;
  }

  /** Fields without white space at their ends are taken as they are. */
  lemma StripKeepsAll(name: string, email: string, message: string)
    requires name != [] && !IsSpace(Py, name[0]) && !IsSpace(Py, name[|name| - 1])
    requires email != [] && !IsSpace(Py, email[0]) && !IsSpace(Py, email[|email| - 1])
    requires message != [] && !IsSpace(Py, message[0]) && !IsSpace(Py, message[|message| - 1])
    ensures StrippedFields(Some(Str(name)), Some(Str(email)), Some(Str(message))) == Some(Submission(name, email, message))
  {
    StripKeeps(name);
    StripKeeps(email);
    StripKeeps(message);
  }

  /** Only the presence of "@" and "." is checked: any POST whose fields
      have no white space at their ends and whose email holds both
      characters, wherever they are, is published and answered with 200. */
  lemma DotAndAtAccepted(verb: string, name: string, email: string, message: string, timestamp: string)
    requires verb != "OPTIONS"
    requires name != [] && !IsSpace(Py, name[0]) && !IsSpace(Py, name[|name| - 1])
    requires email != [] && !IsSpace(Py, email[0]) && !IsSpace(Py, email[|email| - 1])
    requires message != [] && !IsSpace(Py, message[0]) && !IsSpace(Py, message[|message| - 1])
    requires '@' in email && '.' in email
    ensures var e := Event(Some(verb), Some(Text(Object(Some(Str(name)), Some(Str(email)), Some(Str(message))))));
      var r := LambdaHandler(e, timestamp, true);
      r.response.statusCode == 200 && r.publishing == Some(Notification(timestamp, name, email, message))
  {
    StripKeepsAll(name, email, message);
    FieldsClassification(Some(Submission(name, email, message)), timestamp, true);
  }

  /** ".@" is such an email. */
  lemma DotAtPlausible()
    ensures PlausibleEmail(".@")
    ensures ".@" != [] && !IsSpace(Py, ".@"[0]) && !IsSpace(Py, ".@"[1])
  {
    assert HasChar(".@"[1..], '@');
  }

  lemma ContainsMiddle(a: string, b: string, c: string)
    ensures Contains(a + b + c, b)
  {
    assert OccursAt(a + b + c, b, |a|) by {
      assert (a + b + c)[|a|..|a| + |b|] == b;
    }
  }

  lemma FramedCarries(head: string, n: Notification, foot: string)
    ensures Contains(Framed(head, n, foot), n.name) && Contains(Framed(head, n, foot), n.email)
    ensures Contains(Framed(head, n, foot), n.message)
  {
    var t := Framed(head, n, foot);
    var a := head + n.timestamp + "\n\nName: ";
    var b := a + n.name + "\nEmail: ";
    var c := b + n.email + "\n\nMessage:\n";
    ContainsMiddle(a, n.name, "\nEmail: " + n.email + "\n\nMessage:\n" + n.message + foot);
    assert t == a + n.name + ("\nEmail: " + n.email + "\n\nMessage:\n" + n.message + foot);
    ContainsMiddle(b, n.email, "\n\nMessage:\n" + n.message + foot);
    assert t == b + n.email + ("\n\nMessage:\n" + n.message + foot);
    ContainsMiddle(c, n.message, foot);
  }

  /** The published notification names the sender, their email and their
      message, and its subject names the sender. */
  lemma NotificationCarries(n: Notification)
    ensures StartsWith(Subject(n), "Contact Form: Message from ") && EndsWith(Subject(n), n.name)
    ensures Contains(NotificationText(n), n.name) && Contains(NotificationText(n), n.email)
    ensures Contains(NotificationText(n), n.message)
  {
    ConcatEnds("Contact Form: Message from ", n.name);
    FramedCarries(NotificationHead, n, NotificationFoot);
  }

  /** Text that starts with a non-space character survives stripping. */
  lemma StripKeepsFirst(s: string)
    requires s != [] && !IsSpace(Py, s[0])
    ensures Trim(Py, s) != []
  {
    assert TrimStart(Py, s) == s;
  }

  /** The message the contact form sends always starts with "Subject: ",
      so the endpoint never finds it missing: only an empty name or email
      makes it reject a form submission as incomplete. */
  lemma FormMessageNeverMissing(subject: string, company: Option<string>, message: string)
    ensures Stripped(Some(Str(ContactForm.PayloadMessage(subject, company, message)))).value != ""
  {
    var m := ContactForm.PayloadMessage(subject, company, message);
    var head := "Subject: " + subject;
    assert head[0] == 'S';
    assert m[0] == m[..|head|][0];
    StripKeepsFirst(m);
  }
}
