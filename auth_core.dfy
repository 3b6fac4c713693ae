/**
 * The login and signup page of `auth-core.js`: its e-mail pattern, the
 * signup checks (missing fields, then the address, then the password
 * confirmation), the login checks (the address format before empty
 * fields), and what a successful login leaves in storage.
 */
module AuthCore {
  import opened Wrappers
  import opened Text
  import opened AuthStore

  // ---------------------------------------------------------------------
  // EMAIL_REGEX = /^[^\s@]+@(?:[A-Za-z0-9](?:[A-Za-z0-9-]{0,61}[A-Za-z0-9])?\.)+[A-Za-z]{2,}$/
  // ---------------------------------------------------------------------

  /** `[^\s@]+`: the part before the `@`. */
  predicate LocalPart(l: string) {
    |l| > 0 && forall k :: 0 <= k < |l| ==> !IsSpace(l[k]) && l[k] != '@'
  }

  predicate LabelChar(c: char) {
    IsAsciiAlnum(c) || c == '-'
  }

  /** `[A-Za-z0-9](?:[A-Za-z0-9-]{0,61}[A-Za-z0-9])?`: 1 to 63 letters, digits or hyphens, not starting or ending with a hyphen. */
  predicate DomainLabel(l: string) {
    1 <= |l| <= 63 && (forall k :: 0 <= k < |l| ==> LabelChar(l[k]))
    && IsAsciiAlnum(l[0]) && IsAsciiAlnum(l[|l| - 1])
  }

  /** `[A-Za-z]{2,}` */
  predicate TopLevel(t: string) {
    |t| >= 2 && forall k :: 0 <= k < |t| ==> IsAsciiLetter(t[k])
  }

  /**
   * `(?:host\.)+tld`: labels and the top-level domain hold no dot, so the
   * dots split the domain into at least one host and the top-level
   * domain.
   */
  predicate Domain(d: string) {
    var parts := Split(d, '.');
    |parts| >= 2 && (forall k :: 0 <= k < |parts| - 1 ==> DomainLabel(parts[k])) && TopLevel(parts[|parts| - 1])
  }

  /** The strings `EMAIL_REGEX` matches; the local part holds no `@`, so the `@` matched is the first. */
  predicate MatchesEmail(s: string) {
    '@' in s && LocalPart(s[..IndexOfChar(s, '@')]) && Domain(s[IndexOfChar(s, '@') + 1..])
  }

  /** `isValidEmailAddress(email)` */
  function IsValidEmailAddress(email: string): (r: bool)
    ensures r ==> !IsBlank(email)
    ensures r <==> MatchesEmail(Trim(email))
  {
    MatchesEmail(Trim(email))
  }

  /** A domain the pattern accepts holds no `@`. */
  lemma DomainHasNoAt(d: string)
    requires Domain(d)
    ensures '@' !in d
  {
    SplitJoin(d, '.');
    JoinHasNoAt(Split(d, '.'));
  }

  /** A domain the pattern accepts ends with a letter of its top-level domain. */
  lemma DomainEndsWithLetter(d: string)
    requires Domain(d)
    ensures d != [] && IsAsciiLetter(d[|d| - 1])
  {
    var parts := Split(d, '.');
    var t := parts[|parts| - 1];
    assert TopLevel(t);
    assert IsAsciiLetter(t[|t| - 1]);
    SplitJoin(d, '.');
    JoinLast(parts, '.');
    assert d[|d| - 1] == t[|t| - 1];
  }

  /** A matching address has exactly one `@`, with a non-empty part before it. */
  lemma MatchSingleAt(s: string)
    requires MatchesEmail(s)
    ensures var i := IndexOfChar(s, '@'); 0 < i && '@' !in s[i + 1..]
  {
    DomainHasNoAt(s[IndexOfChar(s, '@') + 1..]);
  }

  /** A matching address ends with a letter of its top-level domain, so never with a dot. */
  lemma MatchEndsWithLetter(s: string)
    requires MatchesEmail(s)
    ensures IsAsciiLetter(s[|s| - 1])
  {
    var d := s[IndexOfChar(s, '@') + 1..];
    DomainEndsWithLetter(d);
    assert s[|s| - 1] == d[|d| - 1];
  }

  /** Pieces without `@` join to a string without `@`. */
  lemma {:induction false} JoinHasNoAt(parts: seq<string>)
    requires |parts| >= 1
    requires forall k :: 0 <= k < |parts| - 1 ==> DomainLabel(parts[k])
    requires TopLevel(parts[|parts| - 1])
    ensures '@' !in Join(parts, '.')
    decreases |parts|
  {
    if |parts| > 1 {
      JoinHasNoAt(parts[1..]);
      assert DomainLabel(parts[0]);
    }
  }

  /** A join ends with its last piece. */
  lemma {:induction false} JoinLast(parts: seq<string>, sep: char)
    requires |parts| >= 1 && parts[|parts| - 1] != []
    ensures var j := Join(parts, sep); var t := parts[|parts| - 1];
      j != [] && j[|j| - 1] == t[|t| - 1]
    decreases |parts|
  {
    if |parts| > 1 {
      JoinLast(parts[1..], sep);
    }
  }

  /** `Split` of a domain with one dot between a host and a top-level domain. */
  lemma SplitOneDot(host: string, tld: string)
    requires '.' !in host && '.' !in tld
    ensures Split(host + "." + tld, '.') == [host, tld]
  {
    SplitOfJoin([host, tld], '.');
    assert Join([host, tld], '.') == host + "." + tld by {
      assert Join([host, tld][1..], '.') == tld;
    }
  }

  /** Behind a valid local part, an address matches exactly when what follows its `@` is a valid domain. */
  lemma MatchesAfterLocal(local: string, d: string)
    requires LocalPart(local)
    ensures MatchesEmail(local + "@" + d) <==> Domain(d)
  {
    var s := local + "@" + d;
    assert s == local + ("@" + d);
    assert s[|local|] == '@';
    assert s[..|local|] == local;
    assert IndexOfChar(s, '@') == |local|;
    assert s[|local| + 1..] == d;
  }

  /** A host label holds no dot. */
  lemma LabelHasNoDot(host: string)
    requires DomainLabel(host)
    ensures '.' !in host
  {
    forall k | 0 <= k < |host| ensures host[k] != '.' {
      assert LabelChar(host[k]);
    }
  }

  /** An address with a one-host domain matches when its parts have the pattern's shape. */
  lemma SimpleAddressMatches(local: string, host: string, tld: string)
    requires LocalPart(local) && DomainLabel(host) && TopLevel(tld)
    ensures MatchesEmail(local + "@" + host + "." + tld)
  {
    assert '.' !in tld by {
      forall k | 0 <= k < |tld| ensures tld[k] != '.' {
        assert IsAsciiLetter(tld[k]);
      }
    }
    LabelHasNoDot(host);
    SplitOneDot(host, tld);
    MatchesAfterLocal(local, host + "." + tld);
    assert local + "@" + host + "." + tld == local + "@" + (host + "." + tld);
  }

  /** `a@b.com` is a valid address here. */
  lemma ComAddressValid()
    ensures MatchesEmail("a@b.com")
  {
    SimpleAddressMatches("a", "b", "com");
    assert "a" + "@" + "b" + "." + "com" == "a@b.com";
  }

  /** A domain whose top-level part is a single character is refused. */
  lemma OneLetterDomainInvalid(host: string, c: char)
    requires DomainLabel(host)
    ensures !Domain(host + "." + [c])
  {
    var d := host + "." + [c];
    if c == '.' {
      assert d[|d| - 1] == '.';
      SplitLastEmpty(d);
    } else {
      LabelHasNoDot(host);
      SplitOneDot(host, [c]);
    }
  }

  /** A one-letter top-level domain is refused. */
  lemma OneLetterTopLevelInvalid(local: string, host: string, c: char)
    requires LocalPart(local) && DomainLabel(host)
    ensures !MatchesEmail(local + "@" + host + "." + [c])
  {
    OneLetterDomainInvalid(host, c);
    MatchesAfterLocal(local, host + "." + [c]);
    assert local + "@" + host + "." + [c] == local + "@" + (host + "." + [c]);
  }

  /** A string ending with the separator splits with an empty last piece. */
  lemma {:induction false} SplitLastEmpty(d: string)
    requires d != [] && d[|d| - 1] == '.'
    ensures var parts := Split(d, '.'); parts[|parts| - 1] == []
    decreases |d|
  {
    var i := IndexOfChar(d, '.');
    var rest := d[i + 1..];
    if rest != [] {
      assert rest[|rest| - 1] == '.';
      SplitLastEmpty(rest);
    }
  }

  // ---------------------------------------------------------------------
  // Signup
  // ---------------------------------------------------------------------

  /** The form controls the handlers mark with `aria-invalid`. */
  datatype Field = SignupName | SignupEmail | SignupPassword | SignupConfirm | AcceptPolicy | LoginEmail | LoginPassword

  const SignupFields: set<Field> := {SignupName, SignupEmail, SignupPassword, SignupConfirm, AcceptPolicy}
  const LoginFields: set<Field> := {LoginEmail, LoginPassword}

  /** The order the signup controls appear in. */
  function Rank(f: Field): nat {
    match f
    case SignupName => 0
    case SignupEmail => 1
    case SignupPassword => 2
    case SignupConfirm => 3
    case AcceptPolicy => 4
    case LoginEmail => 5
    case LoginPassword => 6
  }

  /** `collectSignupData()`: the trimmed inputs and the policy checkbox. */
  datatype SignupData = SignupData(name: string, email: string, password: string, passwordConfirm: string, acceptedPolicy: bool)

  function CollectSignupData(name: string, email: string, password: string, confirm: string, policy: bool): (p: SignupData)
    ensures p.name == Trim(name) && p.email == Trim(email) && p.password == Trim(password)
    ensures p.passwordConfirm == Trim(confirm) && p.acceptedPolicy == policy
  {
    SignupData(Trim(name), Trim(email), Trim(password), Trim(confirm), policy)
  }

  /** Control `f` is left empty (or, for the checkbox, unchecked) in `p`. */
  predicate IsMissing(p: SignupData, f: Field) {
    match f
    case SignupName => p.name == ""
    case SignupEmail => p.email == ""
    case SignupPassword => p.password == ""
    case SignupConfirm => p.passwordConfirm == ""
    case AcceptPolicy => !p.acceptedPolicy
    case _ => false
  }

  /** `validateMissing(p)`: the empty controls, in page order. */
  function ValidateMissing(p: SignupData): (miss: seq<Field>)
    ensures forall f :: f in miss <==> IsMissing(p, f)
    ensures forall i, j :: 0 <= i < j < |miss| ==> Rank(miss[i]) < Rank(miss[j])
  {
    (if p.name == "" then [SignupName] else [])
    + (if p.email == "" then [SignupEmail] else [])
    + (if p.password == "" then [SignupPassword] else [])
    + (if p.passwordConfirm == "" then [SignupConfirm] else [])
    + (if !p.acceptedPolicy then [AcceptPolicy] else [])
  }

  /**
   * The messages `showGlobalMessage` shows on this page; `Thrown` is the
   * message of an error a request failed with.
   */
  datatype Notice =
    | Cleared | FillAllFields | InvalidEmail | PasswordsDiffer
    | LoginMissing | LoginSucceeded | LoginRejected | SignupFailed
    | Thrown(text: string)

  /** The text of each message. */
  function NoticeText(n: Notice): string {
    match n
    case Cleared => ""
    case FillAllFields => "Bitte alle Felder ausfüllen."
    case InvalidEmail => "Bitte gültige E-Mail-Adresse eingeben."
    case PasswordsDiffer => "Passwörter stimmen nicht überein."
    case LoginMissing => "Bitte E-Mail und Passwort eingeben."
    case LoginSucceeded => "Login erfolgreich. Weiterleiten …"
    case LoginRejected => "E-Mail und Passwort prüfen."
    case SignupFailed => "Registrierung fehlgeschlagen."
    case Thrown(text) => text
  }

  /** The verdict of a form check: the message and the controls to mark. */
  datatype Check = Pass | Fail(reason: Notice, fields: seq<Field>)

  /**
   * The checks of `handleSignupSubmit` before the account is created:
   * missing controls, then `validateEmailFormat(p) ||
   * validatePasswordMatch(p)`, both of which mark only the address.
   */
  function SignupCheck(p: SignupData): (c: Check)
    ensures c == Pass <==> ValidateMissing(p) == [] && IsValidEmailAddress(p.email) && p.password == p.passwordConfirm
    ensures ValidateMissing(p) != [] ==> c == Fail(FillAllFields, ValidateMissing(p))
    ensures ValidateMissing(p) == [] && !IsValidEmailAddress(p.email) ==> c == Fail(InvalidEmail, [SignupEmail])
    ensures ValidateMissing(p) == [] && IsValidEmailAddress(p.email) && p.password != p.passwordConfirm ==>
      c == Fail(PasswordsDiffer, [SignupEmail])
  {
    var miss := ValidateMissing(p);
    if miss != [] then Fail(FillAllFields, miss)
    else if !IsValidEmailAddress(p.email) then Fail(InvalidEmail, [SignupEmail])
    else if p.password != p.passwordConfirm then Fail(PasswordsDiffer, [SignupEmail])
    else Pass
  }

  /** A form that passes the checks has a non-blank, valid address and a non-empty, confirmed password. */
  lemma PassedSignupIsComplete(p: SignupData)
    requires SignupCheck(p) == Pass
    ensures p.name != "" && p.password != "" && p.password == p.passwordConfirm && p.acceptedPolicy
    ensures IsValidEmailAddress(p.email)
  {
    assert !IsMissing(p, SignupName) && !IsMissing(p, SignupPassword) && !IsMissing(p, AcceptPolicy);
  }

  // ---------------------------------------------------------------------
  // Login
  // ---------------------------------------------------------------------

  const RedirectAfterAuth: string := "../summary.html"

  /** The empty address fails the format check, so its message is the format message, never the one about empty fields. */
  lemma EmptyLoginEmailIsFormatError()
    ensures !IsValidEmailAddress("")
  {
  }

  /**
   * The checks of `handleLoginSubmit` before the credentials are sent:
   * the address format first, then empty fields.
   */
  function LoginCheck(email: string, pass: string): (c: Check)
    ensures !IsValidEmailAddress(email) ==> c == Fail(InvalidEmail, [LoginEmail])
    ensures IsValidEmailAddress(email) && pass == "" ==> c == Fail(LoginMissing, [LoginEmail, LoginPassword])
    ensures c == Pass <==> IsValidEmailAddress(email) && pass != ""
  {
    if !IsValidEmailAddress(email) then Fail(InvalidEmail, [LoginEmail])
    else if email == "" || pass == "" then Fail(LoginMissing, [LoginEmail, LoginPassword])
    else Pass
  }

  /** The controls a failed check marks. */
  function Marks(fields: seq<Field>): (m: set<Field>)
    ensures forall f :: f in m <==> f in fields
  {
    set f | f in fields
  }

  /** What `setLoginStateAfterSuccess(user)` writes to `localStorage`. */
  datatype Session = Session(isGuest: string, name: string, triggerSplash: bool)

  function SessionOf(u: User): (s: Session)
    ensures s.isGuest == "false" && s.triggerSplash
    ensures !IsBlank(ValueOr(u.name)) ==> s.name == Trim(ValueOr(u.name))
  {
    Session("false", DisplayName(u), true)
  }

  /**
   * The login and signup page.  Each handler runs its own checks and, when
   * they pass, returns the request it sends; the user database lives
   * behind the network, so what the request settles with is handed to the
   * matching `Complete` method, the rest of the handler after its
   * `await`.  The fields are the form inputs, the message line, the
   * marked controls, the stored session and the location.
   */
  class AuthPage {
    var signupName: string
    var signupEmail: string
    var signupPassword: string
    var signupConfirm: string
    var acceptPolicy: bool
    var loginEmail: string
    var loginPassword: string
    /** The message line (`showGlobalMessage`); `Cleared` hides it. */
    var message: Notice
    var messageOk: bool
    var invalid: set<Field>
    var session: Option<Session>
    var location: Option<string>

    constructor ()
      ensures message == Cleared && invalid == {} && session.None? && location.None?
      ensures signupName == "" && signupEmail == "" && signupPassword == "" && signupConfirm == "" && !acceptPolicy
      ensures loginEmail == "" && loginPassword == ""
    {
      signupName, signupEmail, signupPassword, signupConfirm := "", "", "", "";
      acceptPolicy := false;
      loginEmail, loginPassword := "", "";
      message, messageOk := Cleared, false;
      invalid := {};
      session, location := None, None;
    }

    /**
     * `handleSignupSubmit()` up to its `await`: the marks and message are
     * cleared; a failed check marks its controls and shows its message;
     * otherwise the collected data is sent to `createNewUser`.
     */
    method HandleSignupSubmit() returns (request: Option<SignupData>)
      modifies this`message, this`messageOk, this`invalid
      ensures var p := CollectSignupData(old(signupName), old(signupEmail), old(signupPassword), old(signupConfirm), old(acceptPolicy));
        var check := SignupCheck(p);
        !messageOk
        && (check.Fail? ==> (request.None? && message == check.reason
            && invalid == old(invalid) - SignupFields + Marks(check.fields)))
        && (check == Pass ==> (request == Some(p) && message == Cleared && invalid == old(invalid) - SignupFields))
    {
      var p := CollectSignupData(signupName, signupEmail, signupPassword, signupConfirm, acceptPolicy);
      var check := SignupCheck(p);
      ShowCheck(check, SignupFields);
      request := if check == Pass then Some(p) else None;
    }

    /**
     * `clearInvalidState(...)` on `form`'s controls and `showGlobalMessage("")`,
     * then, for a failed check, `applyInvalidState` on its controls and its
     * message.
     */
    method ShowCheck(check: Check, form: set<Field>)
      modifies this`message, this`messageOk, this`invalid
      ensures !messageOk
      ensures check.Fail? ==> message == check.reason && invalid == old(invalid) - form + Marks(check.fields)
      ensures check == Pass ==> message == Cleared && invalid == old(invalid) - form
    {
      invalid := invalid - form;
      message, messageOk := Cleared, false;
      if check.Fail? {
        invalid := invalid + Marks(check.fields);
        message := check.reason;
      }
    }

    /**
     * The rest of `handleSignupSubmit()` once `createNewUser` settles with
     * `created`: success resets the form; a failure marks the address and
     * shows the error's message, or a fallback when it has none.
     */
    method CompleteSignup(created: Outcome<User>)
      modifies this`signupName, this`signupEmail, this`signupPassword, this`signupConfirm, this`acceptPolicy,
        this`message, this`invalid
      ensures created.Ok? ==> (signupName == "" && signupEmail == "" && signupPassword == "" && signupConfirm == ""
        && !acceptPolicy && invalid == old(invalid) - SignupFields && message == old(message))
      ensures created.Failed? ==> (invalid == old(invalid) + {SignupEmail}
        && message == (if created.message == "" then SignupFailed else Thrown(created.message))
        && signupName == old(signupName) && signupEmail == old(signupEmail) && signupPassword == old(signupPassword)
        && signupConfirm == old(signupConfirm) && acceptPolicy == old(acceptPolicy))
    {
      if created.Failed? {
        invalid := invalid + {SignupEmail};
        message := if created.message == "" then SignupFailed else Thrown(created.message);
        return;
      }
      signupName, signupEmail, signupPassword, signupConfirm := "", "", "", "";
      acceptPolicy := false;
      invalid := invalid - SignupFields;
    }

    /**
     * `onCheckboxChange()`: ticking the policy box clears its mark and the
     * message line; unticking it changes nothing.
     */
    method OnPolicyChange()
      modifies this`message, this`messageOk, this`invalid
      ensures acceptPolicy ==> (invalid == old(invalid) - {AcceptPolicy} && message == Cleared && !messageOk)
      ensures !acceptPolicy ==> (invalid == old(invalid) && message == old(message) && messageOk == old(messageOk))
    {
      if acceptPolicy {
        invalid := invalid - {AcceptPolicy};
        message, messageOk := Cleared, false;
      }
    }

    /**
     * `handleLoginSubmit()` up to its `await`: the address format is
     * checked first, then empty fields; when both pass, the trimmed
     * address and password are sent to `verifyLoginCredentials`.
     */
    method HandleLoginSubmit() returns (request: Option<(string, string)>)
      modifies this`message, this`messageOk, this`invalid
      ensures var email := Trim(old(loginEmail)); var pass := Trim(old(loginPassword));
        var check := LoginCheck(email, pass);
        !messageOk
        && (check.Fail? ==> (request.None? && message == check.reason && invalid == old(invalid) - LoginFields + Marks(check.fields)))
        && (check == Pass ==> (request == Some((email, pass)) && message == Cleared && invalid == old(invalid) - LoginFields))
    {
      var email := Trim(loginEmail);
      var pass := Trim(loginPassword);
      var check := LoginCheck(email, pass);
      ShowCheck(check, LoginFields);
      request := if check == Pass then Some((email, pass)) else None;
    }

    /**
     * The `try` block of `handleLoginSubmit()` once `verifyLoginCredentials`
     * settles with `verdict`: the session is stored and the page leaves for
     * the summary, or both login controls are marked.
     */
    method CompleteLogin(verdict: Outcome<User>)
      modifies this`message, this`messageOk, this`invalid, this`session, this`location
      ensures verdict.Ok? ==> (session == Some(SessionOf(verdict.value)) && location == Some(RedirectAfterAuth)
        && message == LoginSucceeded && messageOk && invalid == old(invalid))
      ensures verdict.Failed? ==> (message == LoginRejected && messageOk == old(messageOk)
        && invalid == old(invalid) + LoginFields && session == old(session) && location == old(location))
    {
      if verdict.Failed? {
        invalid := invalid + LoginFields;
        message := LoginRejected;
        return;
      }
      EnterSession(SessionOf(verdict.value));
    }

    /** `setLoginStateAfterSuccess(user)`, the success message and the redirect. */
    method EnterSession(stored: Session)
      modifies this`message, this`messageOk, this`session, this`location
      ensures session == Some(stored) && location == Some(RedirectAfterAuth) && message == LoginSucceeded && messageOk
    {
      session := Some(stored);
      message, messageOk := LoginSucceeded, true;
      location := Some(RedirectAfterAuth);
    }
  }

  /**
   * The address and password a signup passed its checks with also pass
   * the login's own checks: typed into the login form, they are sent on
   * exactly as the signup collected them.
   */
  lemma SignupPassesLoginChecks(name: string, email: string, password: string, confirm: string, policy: bool)
    requires SignupCheck(CollectSignupData(name, email, password, confirm, policy)) == Pass
    ensures IsValidEmailAddress(Trim(email)) && Trim(password) != ""
  {
    var p := CollectSignupData(name, email, password, confirm, policy);
    PassedSignupIsComplete(p);
    TrimIdempotent(email);
  }

  /**
   * An account created through the signup form can log in with the
   * address and password typed there.
   */
  lemma SignedUpCanLogIn(store: Store, p: SignupData, id: string, now: int, s: Store, rec: User)
    requires SignupCheck(p) == Pass && id != ""
    requires CreateNewUser(store, p.name, p.email, p.password, id, now) == Ok((s, rec))
    ensures VerifyLoginCredentials(s, p.email, p.password) == Ok(rec)
  {
    SignupThenLogin(store, p.name, p.email, p.password, id, now, s, rec);
  }
}
