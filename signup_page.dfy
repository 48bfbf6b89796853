/** The signup page: the live password-strength line, and the submit
    handler that checks the form in the page's order, sends at most one
    request, and reacts to the answer with a redirect the server asks for
    before it looks at the status. */
module SignupPage {
  import opened Common
  import opened Json
  import opened Text
  import opened Validation

  // ---------------------------------------------------------------- strength line

  datatype Strength = Blank | Strong | Weak(message: string)

  /** The line under the password field after each keystroke. */
  function StrengthLine(p: string): (s: Strength)
    ensures s == Blank <==> p == ""
    ensures s == Strong <==> StrongPassword(p)
    ensures s.Weak? ==> ValidatePassword(p).Rejected? && s.message == PasswordMessage(ValidatePassword(p).rule)
  {
    if p == "" then
      assert !Satisfies(p, TooShort);
      Blank
    else match ValidatePassword(p)
      case Accepted => Strong
      case Rejected(rule) => Weak(PasswordMessage(rule))
  }

  /** Any non-empty password shorter than eight characters shows the length
      rule, whatever characters it has. */
  lemma ShortPasswordShowsLength(p: string)
    requires 0 < |p| < MinPasswordLength
    ensures StrengthLine(p) == Weak("Password must be at least 8 characters long.")
  {
  }

  // ---------------------------------------------------------------- the answer

  datatype SignupRequest = SignupRequest(username: string, email: string, password: string)

  /** What `fetch('/signup')` gives back: no answer at all, or a status and a
      body that may fail to parse (`None`). */
  datatype Answer = NetworkError | Response(ok: bool, body: Option<Json>)

  /** `await r.json().catch(() => ({}))`. */
  function BodyOf(body: Option<Json>): (j: Json)
    ensures body.None? ==> j == Obj(map[])
    ensures body.Some? ==> j == body.value
  {
    if body.Some? then body.value else Obj(map[])
  }

  datatype Reaction = Follow(location: Json) | ShowError(message: string) | GoToDashboard

  /** How the page reacts to an answer; `toText` is the text a JSON value
      becomes when written into the error element. */
  function React(answer: Answer, toText: Json -> string): Reaction {
    match answer
    case NetworkError => ShowError("Network error. Try again later.")
    case Response(ok, body) =>
      var json := BodyOf(body);
      if Present(Get(json, "redirect")) then Follow(Get(json, "redirect").value)
      else if !ok then
        ShowError(if Present(Get(json, "error")) then toText(Get(json, "error").value) else "Signup failed.")
      else GoToDashboard
  }

  /** A redirect in the body is followed whatever the status says. */
  lemma RedirectFirst(ok: bool, body: Option<Json>, toText: Json -> string)
    requires Present(Get(BodyOf(body), "redirect"))
    ensures React(Response(ok, body), toText) == Follow(Get(BodyOf(body), "redirect").value)
    ensures React(Response(ok, body), toText) == React(Response(!ok, body), toText)
  {
  }

  /** Without a redirect, a success goes to the dashboard and a failure shows
      the body's `error`, or a generic message when there is none (which
      includes a body that did not parse). */
  lemma StatusDecides(ok: bool, body: Option<Json>, toText: Json -> string)
    requires !Present(Get(BodyOf(body), "redirect"))
    ensures ok ==> React(Response(ok, body), toText) == GoToDashboard
    ensures !ok && body.None? ==> React(Response(ok, body), toText) == ShowError("Signup failed.")
    ensures !ok && Present(Get(BodyOf(body), "error")) ==>
      React(Response(ok, body), toText) == ShowError(toText(Get(BodyOf(body), "error").value))
  {
  }

  // ---------------------------------------------------------------- the page

  /** The page's checks on the form as typed: the username and the email
      are trimmed first, the password is taken as it is. */
  function PageCheck(username: string, email: string, password: string): Option<FormProblem> {
    ClientSignupCheck(Trim(username), Trim(email), password)
  }

  class Page {
    var errorText: string
    var errorHidden: bool
    var buttonDisabled: bool
    var buttonText: string
    /** Every request the page has sent. */
    var sent: seq<SignupRequest>
    /** Where the page has navigated to, if anywhere. */
    var location: Option<Json>

    constructor ()
      ensures errorText == "" && errorHidden
      ensures !buttonDisabled && buttonText == "Create account"
      ensures sent == [] && location == None
    {
      errorText := "";
      errorHidden := true;
      buttonDisabled := false;
      buttonText := "Create account";
      sent := [];
      location := None;
    }

    /** The submit handler. The form is checked in the page's order (empty
        field, password, email, username); the first failure is shown and
        nothing is sent. Otherwise exactly one request with the trimmed
        username and email is sent, and `answer` is what comes back. */
    method Submit(username: string, email: string, password: string, answer: Answer, toText: Json -> string)
      returns (request: Option<SignupRequest>)
      modifies this
      ensures var problem := PageCheck(username, email, password);
        problem.Some? ==>
          request == None && sent == old(sent)
          && errorText == FormMessage(problem.value) && !errorHidden
          && buttonDisabled == old(buttonDisabled) && buttonText == old(buttonText)
          && location == old(location)
      ensures var problem := PageCheck(username, email, password);
        problem.None? ==>
          request == Some(SignupRequest(Trim(username), Trim(email), password))
          && sent == old(sent) + [request.value]
      ensures request.Some? ==> Reacted(React(answer, toText), old(location), old(errorText))
    {
      var problem := PageCheck(username, email, password);
      if problem.Some? {
        Refuse(FormMessage(problem.value));
        request := None;
      } else {
        var r := SignupRequest(Trim(username), Trim(email), password);
        Send(r, answer, toText);
        request := Some(r);
      }
    }

    /** A form that fails a check: its message is shown, nothing else moves. */
    method Refuse(message: string)
      modifies this
      ensures errorText == message && !errorHidden
      ensures sent == old(sent) && location == old(location)
      ensures buttonDisabled == old(buttonDisabled) && buttonText == old(buttonText)
    {
      errorHidden := true;
      errorText := message;
      errorHidden := false;
    }

    /** A form that passes: the button is disabled, the request is sent, and
        the page reacts to what comes back. */
    method Send(request: SignupRequest, answer: Answer, toText: Json -> string)
      modifies this
      ensures sent == old(sent) + [request]
      ensures Reacted(React(answer, toText), old(location), old(errorText))
    {
      errorHidden := true;
      buttonDisabled := true;
      buttonText := "Creating account...";
      sent := sent + [request];
      Respond(React(answer, toText));
    }

    /** The page after reacting to the answer, from where it was before:
        `before` is the earlier location and `shown` the earlier error text,
        which stays in place while the error is hidden. */
    ghost predicate Reacted(reaction: Reaction, before: Option<Json>, shown: string)
      reads this
    {
      match reaction
      case Follow(target) =>
        location == Some(target) && errorHidden && errorText == shown
        && buttonDisabled && buttonText == "Creating account..."
      case ShowError(message) =>
        errorText == message && !errorHidden && location == before
        && !buttonDisabled && buttonText == "Create account"
      case GoToDashboard =>
        location == Some(Str("/dashboard.html")) && errorHidden && errorText == shown
        && buttonDisabled && buttonText == "Success! Redirecting..."
    }

    /** The part of the handler after the request: a redirect is followed
        with the button left disabled, an error re-enables the button, and
        a success goes to the dashboard. */
    method Respond(reaction: Reaction)
      requires errorHidden && buttonDisabled && buttonText == "Creating account..."
      modifies this
      ensures Reacted(reaction, old(location), old(errorText))
      ensures sent == old(sent)
    {
      match reaction
      case Follow(target) =>
        location := Some(target);
      case ShowError(message) =>
        errorText := message;
        errorHidden := false;
        buttonDisabled := false;
        buttonText := "Create account";
      case GoToDashboard =>
        buttonText := "Success! Redirecting...";
        location := Some(Str("/dashboard.html"));
    }
  }

  /** The server trims the body it receives again; trimming twice changes
      nothing, so a form the page accepts and sends is one the server's
      input checks accept too. */
  lemma SentFormsPassServer(username: string, email: string, password: string)
    requires ClientSignupCheck(Trim(username), Trim(email), password).None?
    ensures ServerSignupCheck(Trim(Trim(username)), Trim(Trim(email)), password).None?
  {
    TrimIdempotent(username);
    TrimIdempotent(email);
  }
}
