/**
 * The second login and signup page, `logi.js`: its own e-mail pattern
 * (a top-level domain of exactly two letters, host labels of any length),
 * `validateSignupPayload`, its English messages, and its user lookup,
 * which trusts an index hit without falling back to the scan.  The hash,
 * the index key, the address normalisation and the stored record are
 * the ones of `AuthStore`, whose behaviour this file's copies share.
 */
module Logi {
  import opened Wrappers
  import opened Text
  import opened AuthStore
  import AuthCore

  // ---------------------------------------------------------------------
  // EMAIL_REGEX = /^[^\s@]+@([A-Za-z0-9-]+\.)+[A-Za-z]{2}$/
  // ---------------------------------------------------------------------

  /** `[A-Za-z0-9-]+`: a host label of letters, digits and hyphens, of any length. */
  predicate HostLabel(l: string) {
    |l| > 0 && forall k :: 0 <= k < |l| ==> AuthCore.LabelChar(l[k])
  }

  /** `[A-Za-z]{2}` */
  predicate TopLevel(t: string) {
    |t| == 2 && IsAsciiLetter(t[0]) && IsAsciiLetter(t[1])
  }

  /** `([A-Za-z0-9-]+\.)+[A-Za-z]{2}`, split at its dots. */
  predicate Domain(d: string) {
    var parts := Split(d, '.');
    |parts| >= 2 && (forall k :: 0 <= k < |parts| - 1 ==> HostLabel(parts[k])) && TopLevel(parts[|parts| - 1])
  }

  /** The strings `EMAIL_REGEX` matches; its local part holds no `@`, so the `@` matched is the first. */
  predicate MatchesEmail(s: string) {
    '@' in s && AuthCore.LocalPart(s[..IndexOfChar(s, '@')]) && Domain(s[IndexOfChar(s, '@') + 1..])
  }

  /** `isValidEmailAddress(email)`: the pattern on the trimmed value. */
  function IsValidEmailAddress(email: string): (r: bool)
    ensures r ==> !IsBlank(email)
    ensures r <==> MatchesEmail(Trim(email))
  {
    MatchesEmail(Trim(email))
  }

  /** Behind a valid local part, an address matches exactly when what follows its `@` is a valid domain. */
  lemma MatchesAfterLocal(local: string, d: string)
    requires AuthCore.LocalPart(local)
    ensures MatchesEmail(local + "@" + d) <==> Domain(d)
  {
    var s := local + "@" + d;
    assert s == local + ("@" + d);
    assert s[|local|] == '@';
    assert s[..|local|] == local;
    assert IndexOfChar(s, '@') == |local|;
    assert s[|local| + 1..] == d;
  }

  /** Host labels as the pattern of `auth-core.js` has them: at most 63 characters, no hyphen at either end. */
  predicate CoreHosts(d: string) {
    var parts := Split(d, '.');
    forall k :: 0 <= k < |parts| - 1 ==> AuthCore.DomainLabel(parts[k])
  }

  /** The length of the part after the last dot. */
  function TopLevelLength(d: string): (n: nat)
    ensures '.' !in d ==> n == |d|
  {
    var parts := Split(d, '.');
    if '.' !in d then SplitNoSep(d, '.'); |d| else |parts[|parts| - 1]|
  }

  /** Without the separator, `Split` returns the whole string. */
  lemma SplitNoSep(d: string, sep: char)
    requires sep !in d
    ensures Split(d, sep) == [d]
  {
    SplitOfJoin([d], sep);
  }

  /**
   * The two pages' domain patterns agree exactly on domains whose host
   * labels suit the stricter page and whose top-level domain has two
   * characters.
   */
  lemma DomainAgreement(d: string)
    ensures Domain(d) && CoreHosts(d) <==> AuthCore.Domain(d) && TopLevelLength(d) == 2
  {
    var parts := Split(d, '.');
    if Domain(d) && CoreHosts(d) {
      assert '.' in d by {
        if '.' !in d {
          SplitNoSep(d, '.');
        }
      }
      var t := parts[|parts| - 1];
      assert AuthCore.TopLevel(t) by {
        forall k | 0 <= k < |t| ensures IsAsciiLetter(t[k]) {
          assert k == 0 || k == 1;
        }
      }
    }
    if AuthCore.Domain(d) && TopLevelLength(d) == 2 {
      assert '.' in d by {
        if '.' !in d {
          SplitNoSep(d, '.');
        }
      }
      forall k | 0 <= k < |parts| - 1 ensures HostLabel(parts[k]) {
        assert AuthCore.DomainLabel(parts[k]);
      }
    }
  }

  /** A top-level part holds no dot. */
  lemma TopLevelHasNoDot(t: string)
    requires TopLevel(t) || AuthCore.TopLevel(t)
    ensures '.' !in t
  {
    forall k | 0 <= k < |t| ensures t[k] != '.' {
      assert IsAsciiLetter(t[k]);
    }
  }

  /** A one-host domain whose top-level part is not two characters long is refused here. */
  lemma LongTopLevelRefusedHere(host: string, tld: string)
    requires '.' !in host && '.' !in tld && |tld| != 2
    ensures !Domain(host + "." + tld)
  {
    AuthCore.SplitOneDot(host, tld);
  }

  /** A host of a single hyphen is a label here. */
  lemma HyphenDomainHere(tld: string)
    requires TopLevel(tld)
    ensures Domain("-" + "." + tld)
  {
    TopLevelHasNoDot(tld);
    AuthCore.SplitOneDot("-", tld);
    assert HostLabel("-");
  }

  /** A host of a single hyphen is no label for `auth-core.js`. */
  lemma HyphenDomainRefusedByCore(tld: string)
    requires TopLevel(tld)
    ensures !AuthCore.Domain("-" + "." + tld)
  {
    TopLevelHasNoDot(tld);
    AuthCore.SplitOneDot("-", tld);
    assert Split("-" + "." + tld, '.')[0] == "-";
    assert !AuthCore.DomainLabel("-");
  }

  /** An address whose top-level domain is longer than two letters passes the pattern of `auth-core.js` but not this page's. */
  lemma LongTopLevelRefusedHereOnly(local: string, host: string, tld: string)
    requires AuthCore.LocalPart(local) && AuthCore.DomainLabel(host) && AuthCore.TopLevel(tld) && |tld| > 2
    ensures !MatchesEmail(local + "@" + host + "." + tld) && AuthCore.MatchesEmail(local + "@" + host + "." + tld)
  {
    AuthCore.SimpleAddressMatches(local, host, tld);
    AuthCore.LabelHasNoDot(host);
    TopLevelHasNoDot(tld);
    LongTopLevelRefusedHere(host, tld);
    MatchesAfterLocal(local, host + "." + tld);
    assert local + "@" + host + "." + tld == local + "@" + (host + "." + tld);
  }

  /** An address whose host is a bare hyphen passes this page's pattern but not the one of `auth-core.js`. */
  lemma HyphenHostAcceptedHere(local: string, tld: string)
    requires AuthCore.LocalPart(local) && TopLevel(tld)
    ensures MatchesEmail(local + "@" + ("-" + "." + tld)) && !AuthCore.MatchesEmail(local + "@" + ("-" + "." + tld))
  {
    HyphenDomainHere(tld);
    HyphenDomainRefusedByCore(tld);
    MatchesAfterLocal(local, "-" + "." + tld);
    AuthCore.MatchesAfterLocal(local, "-" + "." + tld);
  }

  // ---------------------------------------------------------------------
  // Signup and login checks
  // ---------------------------------------------------------------------

  /** The messages `showGlobalMessage` shows on this page; `Thrown` is the message of an error a request failed with. */
  datatype Notice =
    | Cleared | FillAllFields | InvalidEmail | PasswordsDiffer
    | LoginMissing | LoginSucceeded | LoginRejected | SignupFailed
    | Thrown(text: string)

  /** The text of each message. */
  function NoticeText(n: Notice): string {
    match n
    case Cleared => ""
    case FillAllFields => "Please fill out all fields."
    case InvalidEmail => "Please enter a valid email address."
    case PasswordsDiffer => "Passwords do not match."
    case LoginMissing => "Please enter email and password."
    case LoginSucceeded => "Login successful. Redirecting …"
    case LoginRejected => "Check your email and password."
    case SignupFailed => "Sign up failed."
    case Thrown(text) => text
  }

  /** `{ ok, reason, fields }`: the verdict of a form check. */
  datatype Check = Pass | Fail(reason: Notice, fields: seq<AuthCore.Field>)

  /**
   * `validateSignupPayload(payload)`: missing controls, then the address,
   * then the password confirmation, which marks both password controls.
   */
  function ValidateSignupPayload(p: AuthCore.SignupData): (c: Check)
    ensures c == Pass <==> AuthCore.ValidateMissing(p) == [] && IsValidEmailAddress(p.email) && p.password == p.passwordConfirm
    ensures AuthCore.ValidateMissing(p) != [] ==> c == Fail(FillAllFields, AuthCore.ValidateMissing(p))
    ensures AuthCore.ValidateMissing(p) == [] && !IsValidEmailAddress(p.email) ==> c == Fail(InvalidEmail, [AuthCore.SignupEmail])
    ensures AuthCore.ValidateMissing(p) == [] && IsValidEmailAddress(p.email) && p.password != p.passwordConfirm ==>
      c == Fail(PasswordsDiffer, [AuthCore.SignupPassword, AuthCore.SignupConfirm])
  {
    var missing := AuthCore.ValidateMissing(p);
    if missing != [] then Fail(FillAllFields, missing)
    else if !IsValidEmailAddress(p.email) then Fail(InvalidEmail, [AuthCore.SignupEmail])
    else if p.password != p.passwordConfirm then Fail(PasswordsDiffer, [AuthCore.SignupPassword, AuthCore.SignupConfirm])
    else Pass
  }

  /** A payload that passes has every field filled, the policy accepted, a valid address and a confirmed password. */
  lemma PassedPayloadIsComplete(p: AuthCore.SignupData)
    requires ValidateSignupPayload(p) == Pass
    ensures p.name != "" && p.email != "" && p.password != "" && p.password == p.passwordConfirm && p.acceptedPolicy
    ensures IsValidEmailAddress(p.email)
  {
    assert !AuthCore.IsMissing(p, AuthCore.SignupName) && !AuthCore.IsMissing(p, AuthCore.SignupEmail);
    assert !AuthCore.IsMissing(p, AuthCore.SignupPassword) && !AuthCore.IsMissing(p, AuthCore.AcceptPolicy);
  }

  /**
   * Where the two pages' address patterns agree on a form, they accept
   * the same forms, and a form with a missing control fails on both
   * with the same controls marked.
   */
  lemma PayloadAgreesWithCore(p: AuthCore.SignupData)
    requires IsValidEmailAddress(p.email) <==> AuthCore.IsValidEmailAddress(p.email)
    ensures ValidateSignupPayload(p) == Pass <==> AuthCore.SignupCheck(p) == AuthCore.Pass
    ensures AuthCore.ValidateMissing(p) != [] ==> ValidateSignupPayload(p).fields == AuthCore.SignupCheck(p).fields
  {
  }

  /** The checks of `handleLoginSubmit` before the credentials are sent: the address format, then empty fields. */
  function LoginCheck(email: string, pass: string): (c: Check)
    ensures !IsValidEmailAddress(email) ==> c == Fail(InvalidEmail, [AuthCore.LoginEmail])
    ensures IsValidEmailAddress(email) && pass == "" ==> c == Fail(LoginMissing, [AuthCore.LoginEmail, AuthCore.LoginPassword])
    ensures c == Pass <==> IsValidEmailAddress(email) && pass != ""
  {
    if !IsValidEmailAddress(email) then Fail(InvalidEmail, [AuthCore.LoginEmail])
    else if email == "" || pass == "" then Fail(LoginMissing, [AuthCore.LoginEmail, AuthCore.LoginPassword])
    else Pass
  }

  // ---------------------------------------------------------------------
  // Data layer
  // ---------------------------------------------------------------------

  /**
   * `fetchUserByEmail(lowerEmail)` of `logi.js` as written: an index hit
   * returns whatever is stored under its id, even nothing, and only a
   * missing index entry leads to the scan.
   */
  function FetchUserByEmailAsWritten(store: Store, lower: string): (r: Option<User>)
    ensures r.Some? ==> r.value in Values(store.users)
    ensures IndexedId(store, lower).None? ==> r == Scan(store.users, lower)
  {
    var id := IndexedId(store, lower);
    if id.Some? then UserAt(store.users, id.value) else Scan(store.users, lower)
  }

  /** Without an index entry, the lookup is the intended one. */
  lemma FetchAgreesWithoutIndex(store: Store, lower: string)
    requires IndexedId(store, lower).None?
    ensures FetchUserByEmailAsWritten(store, lower) == FetchUserByEmailChecked(store, lower)
  {
  }

  /** An index entry naming a missing record hides the address even from the scan. */
  lemma StaleIndexHidesUser(store: Store, lower: string, id: string)
    requires IndexedId(store, lower) == Some(id) && UserAt(store.users, id).None?
    requires Registered(store.users, lower)
    ensures FetchUserByEmailAsWritten(store, lower).None? && FetchUserByEmailChecked(store, lower).Some?
  {
  }

  /** `verifyLoginCredentials(emailAddress, rawPassword)` of `logi.js`. */
  function VerifyLoginCredentialsAsWritten(store: Store, email: string, pass: string): (r: Outcome<User>)
    ensures r.Ok? ==> r.value in Values(store.users) && r.value.passwordHash == Some(SimpleHash(pass))
    ensures IndexedId(store, Normalize(email)).None? ==> r == VerifyLoginCredentialsChecked(store, email, pass)
  {
    CheckCredentials(FetchUserByEmailAsWritten(store, Normalize(email)), pass)
  }

  /** `createNewUser({fullName, emailAddress, rawPassword})` of `logi.js`: its existence check is the lookup above. */
  function CreateNewUserAsWritten(store: Store, fullName: string, emailAddress: string, rawPassword: string, id: string, now: int): (r: Outcome<(Store, User)>)
    ensures Normalize(emailAddress) == "" ==> r == Failed(MissingEmail)
    ensures r.Ok? ==> r.value == SaveUser(store, fullName, Normalize(emailAddress), rawPassword, id, now)
    ensures r.Failed? ==> r == Failed(MissingEmail) || r == Failed(AlreadyRegistered)
  {
    var lower := Normalize(emailAddress);
    if lower == "" then Failed(MissingEmail)
    else if FetchUserByEmailAsWritten(store, lower).Some? then Failed(AlreadyRegistered)
    else Ok(SaveUser(store, fullName, lower, rawPassword, id, now))
  }

  /** Without an index entry for the address, signing up here is the intended signup. */
  lemma CreateAgreesWithoutIndex(store: Store, fullName: string, emailAddress: string, rawPassword: string, id: string, now: int)
    requires IndexedId(store, Normalize(emailAddress)).None?
    ensures CreateNewUserAsWritten(store, fullName, emailAddress, rawPassword, id, now) == CreateNewUserChecked(store, fullName, emailAddress, rawPassword, id, now)
  {
    FetchAgreesWithoutIndex(store, Normalize(emailAddress));
  }

  /** After a signup, the address's index entry leads to the new record. */
  lemma CreatedIsIndexedAsWritten(store: Store, fullName: string, email: string, pass: string, id: string, now: int, s: Store, rec: User)
    requires CreateNewUserAsWritten(store, fullName, email, pass, id, now) == Ok((s, rec)) && id != ""
    ensures IndexedId(s, Normalize(email)) == Some(id) && UserAt(s.users, id) == Some(rec)
    ensures EmailKey(rec) == Normalize(email) && rec.passwordHash == Some(SimpleHash(pass))
  {
    NormalizeStable(email);
  }

  /**
   * As written, once an address has signed up, another address with the
   * same index key logs in as that account with its password.
   */
  lemma CollidingLoginAsWritten(store: Store, fullName: string, email: string, pass: string, id: string, now: int, s: Store, rec: User, other: string)
    requires CreateNewUserAsWritten(store, fullName, email, pass, id, now) == Ok((s, rec)) && id != ""
    requires Normalize(other) != Normalize(email) && SafeKey(Normalize(other)) == SafeKey(Normalize(email))
    ensures VerifyLoginCredentialsAsWritten(s, other, pass) == Ok(rec)
    ensures EmailKey(rec) != Normalize(other)
  {
    CreatedIsIndexedAsWritten(store, fullName, email, pass, id, now, s, rec);
    CollidingKeyHitsAsWritten(s, Normalize(email), Normalize(other), id, rec, pass);
  }

  /** Any address sharing an index key with an indexed account logs in as that account. */
  lemma CollidingKeyHitsAsWritten(s: Store, lower: string, other: string, id: string, rec: User, pass: string)
    requires IndexedId(s, lower) == Some(id) && UserAt(s.users, id) == Some(rec) && rec.passwordHash == Some(SimpleHash(pass))
    requires SafeKey(other) == SafeKey(lower)
    ensures CheckCredentials(FetchUserByEmailAsWritten(s, other), pass) == Ok(rec)
  {
    assert IndexedId(s, other) == Some(id);
  }

  // ---------------------------------------------------------------------
  // The page
  // ---------------------------------------------------------------------

  /**
   * The page of `logi.js`.  As in `AuthCore.AuthPage`, each handler runs
   * its own checks and returns the request it sends, and what the request
   * settles with is handed to the matching `Complete` method.
   */
  class LogiPage {
    var signupName: string
    var signupEmail: string
    var signupPassword: string
    var signupConfirm: string
    var acceptPolicy: bool
    var loginEmail: string
    var loginPassword: string
    /** The message line (`showGlobalMessage`); `Cleared` hides it. */
    var message: Notice
    var messageOk: bool
    var invalid: set<AuthCore.Field>
    var session: Option<AuthCore.Session>
    var location: Option<string>

    constructor ()
      ensures message == Cleared && invalid == {} && session.None? && location.None?
      ensures signupName == "" && signupEmail == "" && signupPassword == "" && signupConfirm == "" && !acceptPolicy
      ensures loginEmail == "" && loginPassword == ""
    {
      signupName, signupEmail, signupPassword, signupConfirm := "", "", "", "";
      acceptPolicy := false;
      loginEmail, loginPassword := "", "";
      message, messageOk := Cleared, false;
      invalid := {};
      session, location := None, None;
    }

    /**
     * `clearInvalidState(...)` on `form`'s controls and `showGlobalMessage('')`,
     * then, for a failed check, its controls marked and its message shown.
     */
    method ShowCheck(check: Check, form: set<AuthCore.Field>)
      modifies this`message, this`messageOk, this`invalid
      ensures !messageOk
      ensures check.Fail? ==> message == check.reason && invalid == old(invalid) - form + AuthCore.Marks(check.fields)
      ensures check == Pass ==> message == Cleared && invalid == old(invalid) - form
    {
      invalid := invalid - form;
      message, messageOk := Cleared, false;
      if check.Fail? {
        invalid := invalid + AuthCore.Marks(check.fields);
        message := check.reason;
      }
    }

    /** `handleSignupSubmit()` up to its `await`: the payload check, then the request to `createNewUser`. */
    method HandleSignupSubmit() returns (request: Option<AuthCore.SignupData>)
      modifies this`message, this`messageOk, this`invalid
      ensures var p := AuthCore.CollectSignupData(old(signupName), old(signupEmail), old(signupPassword), old(signupConfirm), old(acceptPolicy));
        var check := ValidateSignupPayload(p);
        !messageOk
        && (check.Fail? ==> (request.None? && message == check.reason
            && invalid == old(invalid) - AuthCore.SignupFields + AuthCore.Marks(check.fields)))
        && (check == Pass ==> (request == Some(p) && message == Cleared && invalid == old(invalid) - AuthCore.SignupFields))
    {
      var p := AuthCore.CollectSignupData(signupName, signupEmail, signupPassword, signupConfirm, acceptPolicy);
      var check := ValidateSignupPayload(p);
      ShowCheck(check, AuthCore.SignupFields);
      request := if check == Pass then Some(p) else None;
    }

    /**
     * The rest of `handleSignupSubmit()` once `createNewUser` settles:
     * success resets the form; a failure marks the address and shows the
     * error's message, or `'Sign up failed.'` when it has none.
     */
    method CompleteSignup(created: Outcome<User>)
      modifies this`signupName, this`signupEmail, this`signupPassword, this`signupConfirm, this`acceptPolicy,
        this`message, this`invalid
      ensures created.Ok? ==> (signupName == "" && signupEmail == "" && signupPassword == "" && signupConfirm == ""
        && !acceptPolicy && invalid == old(invalid) - AuthCore.SignupFields && message == old(message))
      ensures created.Failed? ==> (invalid == old(invalid) + {AuthCore.SignupEmail}
        && message == (if created.message == "" then SignupFailed else Thrown(created.message))
        && signupName == old(signupName) && signupEmail == old(signupEmail) && signupPassword == old(signupPassword)
        && signupConfirm == old(signupConfirm) && acceptPolicy == old(acceptPolicy))
    {
      if created.Failed? {
        invalid := invalid + {AuthCore.SignupEmail};
        message := if created.message == "" then SignupFailed else Thrown(created.message);
        return;
      }
      signupName, signupEmail, signupPassword, signupConfirm := "", "", "", "";
      acceptPolicy := false;
      invalid := invalid - AuthCore.SignupFields;
    }

    /** `handleLoginSubmit()` up to its `await`: the address format first, then empty fields. */
    method HandleLoginSubmit() returns (request: Option<(string, string)>)
      modifies this`message, this`messageOk, this`invalid
      ensures var email := Trim(old(loginEmail)); var pass := Trim(old(loginPassword));
        var check := LoginCheck(email, pass);
        !messageOk
        && (check.Fail? ==> (request.None? && message == check.reason
            && invalid == old(invalid) - AuthCore.LoginFields + AuthCore.Marks(check.fields)))
        && (check == Pass ==> (request == Some((email, pass)) && message == Cleared && invalid == old(invalid) - AuthCore.LoginFields))
    {
      var email := Trim(loginEmail);
      var pass := Trim(loginPassword);
      var check := LoginCheck(email, pass);
      ShowCheck(check, AuthCore.LoginFields);
      request := if check == Pass then Some((email, pass)) else None;
    }

    /**
     * The `try` block of `handleLoginSubmit()` once `verifyLoginCredentials`
     * settles: the session is stored and the page leaves for the summary,
     * or both login controls are marked.
     */
    method CompleteLogin(verdict: Outcome<User>)
      modifies this`message, this`messageOk, this`invalid, this`session, this`location
      ensures verdict.Ok? ==> (session == Some(AuthCore.SessionOf(verdict.value)) && location == Some(AuthCore.RedirectAfterAuth)
        && message == LoginSucceeded && messageOk && invalid == old(invalid))
      ensures verdict.Failed? ==> (message == LoginRejected && messageOk == old(messageOk)
        && invalid == old(invalid) + AuthCore.LoginFields && session == old(session) && location == old(location))
    {
      if verdict.Failed? {
        invalid := invalid + AuthCore.LoginFields;
        message := LoginRejected;
        return;
      }
      EnterSession(AuthCore.SessionOf(verdict.value));
    }

    /** `setLoginStateAfterSuccess(user)`, the success message and the redirect. */
    method EnterSession(stored: AuthCore.Session)
      modifies this`message, this`messageOk, this`session, this`location
      ensures session == Some(stored) && location == Some(AuthCore.RedirectAfterAuth) && message == LoginSucceeded && messageOk
    {
      session := Some(stored);
      message, messageOk := LoginSucceeded, true;
      location := Some(AuthCore.RedirectAfterAuth);
    }

    /** The checkbox fix-up: ticking the policy box clears its mark and the message line. */
    method OnPolicyChange()
      modifies this`message, this`messageOk, this`invalid
      ensures acceptPolicy ==> (invalid == old(invalid) - {AuthCore.AcceptPolicy} && message == Cleared && !messageOk)
      ensures !acceptPolicy ==> (invalid == old(invalid) && message == old(message) && messageOk == old(messageOk))
    {
      if acceptPolicy {
        invalid := invalid - {AuthCore.AcceptPolicy};
        message, messageOk := Cleared, false;
      }
    }
  }
}
