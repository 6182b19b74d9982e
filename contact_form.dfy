/** The contact form's submission state (`useContactForm`): the payload
    sent to the contact endpoint and the `isSubmitting`, `submitStatus`
    and `errorMessage` state a submission moves through. The endpoint's
    answer is a parameter. */
module ContactForm {
  import opened Text

  datatype Status = Idle | Success | Error

  /** What the visitor typed. */
  datatype ContactFormData = ContactFormData(
    name: string, email: string, company: Option<string>, subject: string, message: string)

  /** The JSON object posted to the endpoint. */
  datatype Payload = Payload(name: string, email: string, message: string)

  /** What the request comes to: a response whose JSON body was read, with
      its `ok` flag and its `error` field, or an error thrown by the
      request or by reading the body. */
  datatype Answer = Answered(ok: bool, error: Option<string>) | Threw

  const DefaultError := "Failed to send message. Please try again."
  const NetworkError := "Network error. Please check your connection and try again."

  /** The company line, present when a company was given. */
  function CompanyLine(company: Option<string>): string {
    if company.Some? && company.value != "" then "\nCompany: " + company.value else ""
  }

  /** The payload message: the subject, the company line and the message,
      labelled. */
  function PayloadMessage(subject: string, company: Option<string>, message: string): (m: string)
    ensures StartsWith(m, "Subject: " + subject)
    ensures EndsWith(m, "\n\nMessage:\n" + message)
  {
    var head := "Subject: " + subject;
    var tail := "\n\nMessage:\n" + message;
    ConcatEnds(head, CompanyLine(company) + tail);
    ConcatEnds(head + CompanyLine(company), tail);
    assert head + (CompanyLine(company) + tail) == head + CompanyLine(company) + tail;
    head + CompanyLine(company) + tail
  }

  /** The payload of a submission: trimmed name and email, and a message
      made of the subject, the company when there is one, and the trimmed
      message. */
  function BuildPayload(data: ContactFormData): (p: Payload)
    ensures p.name == Trim(Js, data.name) && p.email == Trim(Js, data.email)
    ensures p.message == PayloadMessage(data.subject, data.company, Trim(Js, data.message))
  {
    Payload(Trim(Js, data.name), Trim(Js, data.email), PayloadMessage(data.subject, data.company, Trim(Js, data.message)))
  }

  /** The company appears exactly when it was given: the message with a
      company is the one without, with the company line inserted after the
      subject. */
  lemma CompanyInserted(subject: string, company: string, message: string)
    requires company != ""
    ensures var without := PayloadMessage(subject, None, message);
      var at := |"Subject: " + subject|;
      PayloadMessage(subject, Some(company), message) == without[..at] + "\nCompany: " + company + without[at..]
  {
    var head := "Subject: " + subject;
    var tail := "\n\nMessage:\n" + message;
    var without := head + "" + tail;
    assert without[..|head|] == head && without[|head|..] == tail;
  }

  /** An empty company is left out like a missing one. */
  lemma EmptyCompanyOmitted(subject: string, message: string)
    ensures PayloadMessage(subject, Some(""), message) == PayloadMessage(subject, None, message)
  {
  }

  /** The status and error message an answer leaves. */
  function Settled(answer: Answer): (r: (Status, string))
    ensures r.0 == Success <==> answer.Answered? && answer.ok
    ensures r.0 == Success || r.0 == Error
    ensures r.0 == Error <==> r.1 != ""
    ensures answer.Threw? ==> r.1 == NetworkError
  {
    match answer
    case Threw => (Error, NetworkError)
    case Answered(ok, error) =>
      if ok then (Success, "")
      else if error.Some? && error.value != "" then (Error, error.value)
      else (Error, DefaultError)
  }

  /** The hook's state. */
  class ContactFormState {
    var isSubmitting: bool
    var submitStatus: Status
    var errorMessage: string

    /** An error message is shown exactly with the error status. */
    predicate Valid()
      reads this
    {
      submitStatus == Error <==> errorMessage != ""
    }

    constructor ()
      ensures Valid()
      ensures !isSubmitting && submitStatus == Idle && errorMessage == ""
    {
      isSubmitting := false;
      submitStatus := Idle;
      errorMessage := "";
    }

    /** The start of `submitForm(data)`: the state is reset and the payload
        is built. */
    method BeginSubmit(data: ContactFormData) returns (payload: Payload)
      modifies this
      ensures Valid()
      ensures isSubmitting && submitStatus == Idle && errorMessage == ""
      ensures payload == BuildPayload(data)
    {
      isSubmitting := true;
      submitStatus := Idle;
      errorMessage := "";
      payload := BuildPayload(data);
    }

    /** The end of `submitForm`, once the request is answered or has
        thrown. */
    method FinishSubmit(answer: Answer)
      requires submitStatus == Idle && errorMessage == ""
      modifies this
      ensures Valid()
      ensures !isSubmitting
      ensures (submitStatus, errorMessage) == Settled(answer)
    {
      isSubmitting := false;
      match answer
      case Threw =>
        submitStatus := Error;
        errorMessage := NetworkError;
      case Answered(ok, error) =>
        if ok {
          submitStatus := Success;
        } else {
          submitStatus := Error;
          errorMessage := if error.Some? && error.value != "" then error.value else DefaultError;
        }
    }

    /** `submitForm(data)` as one call. */
    method SubmitForm(data: ContactFormData, answer: Answer) returns (payload: Payload)
      modifies this
      ensures Valid()
      ensures payload == BuildPayload(data)
      ensures !isSubmitting && (submitStatus, errorMessage) == Settled(answer)
    {
      payload := BeginSubmit(data);
      FinishSubmit(answer);
    }

    /** `resetStatus`: back to idle, with the submitting flag untouched. */
    method ResetStatus()
      modifies this
      ensures Valid()
      ensures submitStatus == Idle && errorMessage == ""
      ensures isSubmitting == old(isSubmitting)
    {
      submitStatus := Idle;
      errorMessage := "";
    }
  }
}
