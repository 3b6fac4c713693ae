/**
 * The contact forms' checks of `contacts.validation.js`: the e-mail
 * pattern `local@domain.(de|com|net)`, the minimum phone length, and the
 * order in which the add and edit forms check their fields and show their
 * errors.
 */
module ContactsValidation {
  import opened Text

  /** `[a-zA-Z0-9._%+-]` */
  predicate LocalChar(c: char) {
    IsAsciiAlnum(c) || c == '.' || c == '_' || c == '%' || c == '+' || c == '-'
  }

  /** `[a-zA-Z0-9.-]` */
  predicate DomainChar(c: char) {
    IsAsciiAlnum(c) || c == '.' || c == '-'
  }

  predicate LocalPart(s: string) {
    |s| > 0 && forall k :: 0 <= k < |s| ==> LocalChar(s[k])
  }

  predicate DomainPart(s: string) {
    |s| > 0 && forall k :: 0 <= k < |s| ==> DomainChar(s[k])
  }

  /** `(de|com|net)` */
  predicate IsTld(t: string) {
    t == "de" || t == "com" || t == "net"
  }

  /** `s` splits as local part, `@` at `i`, domain, `.` at `j`, top-level domain. */
  predicate EmailShape(s: string, i: nat, j: nat)
    requires i < j < |s|
  {
    s[i] == '@' && LocalPart(s[..i]) && DomainPart(s[i + 1..j]) && s[j] == '.' && IsTld(s[j + 1..])
  }

  /** The strings `/^[a-zA-Z0-9._%+-]+@[a-zA-Z0-9.-]+\.(de|com|net)$/` matches. */
  predicate MatchesContactEmail(s: string) {
    exists i: nat, j: nat :: i < j < |s| && EmailShape(s, i, j)
  }

  /** The `@` of a match is the first one: the local part holds none. */
  lemma ShapeAtFirstAt(s: string, i: nat, j: nat)
    requires i < j < |s| && EmailShape(s, i, j)
    ensures '@' in s && IndexOfChar(s, '@') == i
  {
    forall k | 0 <= k < i ensures s[k] != '@' {
      assert LocalChar(s[..i][k]);
    }
  }

  /** The `.` before the top-level domain sits three or four characters from the end. */
  lemma ShapeDotPosition(s: string, i: nat, j: nat)
    requires i < j < |s| && EmailShape(s, i, j)
    ensures j == |s| - 3 || j == |s| - 4
  {
    assert |s[j + 1..]| == 2 || |s[j + 1..]| == 3;
  }

  /** `emailPattern.test(s)`: the first `@`, then the two places the final dot can be. */
  function ContactEmailTest(s: string): (r: bool)
    ensures r <==> MatchesContactEmail(s)
  {
    if '@' !in s then
      assert !MatchesContactEmail(s) by {
        forall i: nat, j: nat | i < j < |s| ensures !EmailShape(s, i, j) {
          assert s[i] != '@';
        }
      }
      false
    else
      var i := IndexOfChar(s, '@');
      var r := (i < |s| - 3 && EmailShape(s, i, |s| - 3)) || (4 <= |s| && i < |s| - 4 && EmailShape(s, i, |s| - 4));
      assert MatchesContactEmail(s) ==> r by {
        if MatchesContactEmail(s) {
          var i': nat, j: nat :| i' < j < |s| && EmailShape(s, i', j);
          ShapeAtFirstAt(s, i', j);
          ShapeDotPosition(s, i', j);
        }
      }
      r
  }

  /** `isValidEmail(email)`: the pattern, on the trimmed address. */
  function IsValidEmail(email: string): (r: bool)
    ensures r <==> MatchesContactEmail(Trim(email))
  {
    ContactEmailTest(Trim(email))
  }

  /** `isValidPhone(phone)`: at least six characters once trimmed. */
  function IsValidPhone(phone: string): (r: bool)
    ensures r <==> |Trim(phone)| >= 6
  {
    |Trim(phone)| >= 6
  }

  /** A top-level domain holds no `@`. */
  lemma TldHasNoAt(t: string)
    requires IsTld(t)
    ensures '@' !in t
  {
  }

  /** After the `@` of a match, the address holds no other `@`. */
  lemma ShapeSingleAt(s: string, i: nat, j: nat)
    requires i < j < |s| && EmailShape(s, i, j)
    ensures '@' !in s[i + 1..]
  {
    var tld := s[j + 1..];
    TldHasNoAt(tld);
    forall k | i + 1 <= k < |s| ensures s[k] != '@' {
      if k < j {
        assert DomainChar(s[i + 1..j][k - i - 1]);
      } else if k > j {
        assert tld[k - j - 1] in tld;
      }
    }
  }

  /** A valid address is not blank and has exactly one `@`, with a non-empty part on each side. */
  lemma ValidEmailHasOneAt(email: string)
    requires IsValidEmail(email)
    ensures !IsBlank(email)
    ensures var t := Trim(email); '@' in t && 0 < IndexOfChar(t, '@') < |t| - 1 && '@' !in t[IndexOfChar(t, '@') + 1..]
  {
    var t := Trim(email);
    var i: nat, j: nat :| i < j < |t| && EmailShape(t, i, j);
    ShapeAtFirstAt(t, i, j);
    ShapeSingleAt(t, i, j);
  }

  /** The address `foo@bar.de` is valid. */
  lemma ExampleAddressValid()
    ensures MatchesContactEmail("foo@bar.de")
  {
    var s := "foo@bar.de";
    assert s[..3] == "foo" && s[4..7] == "bar" && s[8..] == "de";
    assert EmailShape(s, 3, 7);
  }

  /** `.org` is not among the accepted top-level domains. */
  lemma OrgAddressInvalid()
    ensures !MatchesContactEmail("foo@bar.org")
  {
    var s := "foo@bar.org";
    forall i: nat, j: nat | i < j < |s| ensures !EmailShape(s, i, j) {
      if j == 7 {
        assert s[8..] == "org";
      } else {
        assert s[j] != '.';
      }
    }
  }

  /** What `validateAllFields()` accepts: no blank field, a valid address and a valid phone. */
  predicate AddAccepts(name: string, email: string, phone: string) {
    !IsBlank(name) && !IsBlank(email) && !IsBlank(phone) && IsValidEmail(email) && IsValidPhone(phone)
  }

  /** What `validateEditContactFields(name, email, phone)` accepts: no empty value, a valid address and a valid phone. */
  predicate EditAccepts(name: string, email: string, phone: string) {
    name != "" && email != "" && phone != "" && IsValidEmail(email) && IsValidPhone(phone)
  }

  /** `email && !emailPattern.test(email)` on the trimmed value of `validateEmailInput`. */
  function EmailInputFlagged(value: string): (r: bool)
    ensures r <==> !IsBlank(value) && !IsValidEmail(value)
  {
    var email := Trim(value);
    email != "" && !ContactEmailTest(email)
  }

  /**
   * The edit form receives trimmed values, and on those it accepts
   * exactly what the add form accepts.
   */
  lemma EditAgreesWithAddOnTrimmed(name: string, email: string, phone: string)
    ensures EditAccepts(Trim(name), Trim(email), Trim(phone)) <==> AddAccepts(name, email, phone)
  {
    TrimIdempotent(email);
    TrimIdempotent(phone);
  }

  /** A form the add checks accept shows no live e-mail error. */
  lemma AcceptedEmailNotFlagged(name: string, email: string, phone: string)
    requires AddAccepts(name, email, phone)
    ensures !EmailInputFlagged(email)
  {
  }

  /** The add-contact form: red borders and the three error messages. */
  class AddContactForm {
    var nameRed: bool
    var emailRed: bool
    var phoneRed: bool
    /** `#addInputError` ("fill in all fields") shown. */
    var requiredError: bool
    /** `#addEmailError` shown. */
    var emailError: bool
    /** `#addPhoneError` shown. */
    var phoneError: bool

    constructor ()
      ensures !nameRed && !emailRed && !phoneRed && !requiredError && !emailError && !phoneError
    {
      nameRed, emailRed, phoneRed := false, false, false;
      requiredError, emailError, phoneError := false, false, false;
    }

    /**
     * `validateAllFields()`: the required check, then the address, then the
     * phone, stopping at the first failure with its error shown; when all
     * pass, every error is cleared.
     */
    method ValidateAllFields(name: string, email: string, phone: string) returns (ok: bool)
      modifies this
      ensures ok <==> AddAccepts(name, email, phone)
      ensures IsBlank(name) || IsBlank(email) || IsBlank(phone) ==>
        nameRed && emailRed && phoneRed && requiredError
        && emailError == old(emailError) && phoneError == old(phoneError)
      ensures !IsBlank(name) && !IsBlank(email) && !IsBlank(phone) && !IsValidEmail(email) ==>
        emailRed && emailError && nameRed == old(nameRed) && phoneRed == old(phoneRed)
        && requiredError == old(requiredError) && phoneError == old(phoneError)
      ensures !IsBlank(name) && !IsBlank(email) && !IsBlank(phone) && IsValidEmail(email) && !IsValidPhone(phone) ==>
        phoneRed && phoneError && nameRed == old(nameRed) && emailRed == old(emailRed)
        && requiredError == old(requiredError) && emailError == old(emailError)
      ensures ok ==> !nameRed && !emailRed && !phoneRed && !requiredError && !emailError && !phoneError
    {
      if IsBlank(name) || IsBlank(email) || IsBlank(phone) {
        nameRed, emailRed, phoneRed := true, true, true;
        requiredError := true;
        return false;
      }
      if !IsValidEmail(email) {
        emailRed := true;
        emailError := true;
        return false;
      }
      if !IsValidPhone(phone) {
        phoneRed := true;
        phoneError := true;
        return false;
      }
      nameRed, emailRed, phoneRed := false, false, false;
      requiredError, emailError, phoneError := false, false, false;
      return true;
    }

    /** `validateEmailInput(input)` on `#addInputEmail`: border and error follow the live check. */
    method ValidateEmailInput(value: string)
      modifies this`emailRed, this`emailError
      ensures emailRed == EmailInputFlagged(value) && emailError == EmailInputFlagged(value)
    {
      var flagged := EmailInputFlagged(value);
      emailRed := flagged;
      emailError := flagged;
    }
  }

  /** The edit-contact form: the address and phone borders and errors. */
  class EditContactForm {
    var emailRed: bool
    var emailError: bool
    var phoneRed: bool
    var phoneError: bool

    constructor ()
      ensures !emailRed && !emailError && !phoneRed && !phoneError
    {
      emailRed, emailError, phoneRed, phoneError := false, false, false, false;
    }

    /**
     * `validateEditContactFields(name, email, phone)`: an empty value fails
     * silently; then the address is checked (its error shown or cleared),
     * then the phone.
     */
    method ValidateEditContactFields(name: string, email: string, phone: string) returns (ok: bool)
      modifies this
      ensures ok <==> EditAccepts(name, email, phone)
      ensures name == "" || email == "" || phone == "" ==>
        emailRed == old(emailRed) && emailError == old(emailError) && phoneRed == old(phoneRed) && phoneError == old(phoneError)
      ensures name != "" && email != "" && phone != "" ==>
        emailRed == !IsValidEmail(email) && emailError == !IsValidEmail(email)
      ensures name != "" && email != "" && phone != "" && !IsValidEmail(email) ==>
        phoneRed == old(phoneRed) && phoneError == old(phoneError)
      ensures name != "" && email != "" && phone != "" && IsValidEmail(email) ==>
        phoneRed == !IsValidPhone(phone) && phoneError == !IsValidPhone(phone)
    {
      if name == "" || email == "" || phone == "" {
        return false;
      }
      if !IsValidEmail(email) {
        emailRed := true;
        emailError := true;
        return false;
      }
      emailRed, emailError := false, false;
      if !IsValidPhone(phone) {
        phoneRed := true;
        phoneError := true;
        return false;
      }
      phoneRed, phoneError := false, false;
      return true;
    }

    /** `validateEmailInput(input)` on `#editContactEmail`. */
    method ValidateEmailInput(value: string)
      modifies this`emailRed, this`emailError
      ensures emailRed == EmailInputFlagged(value) && emailError == EmailInputFlagged(value)
    {
      var flagged := EmailInputFlagged(value);
      emailRed := flagged;
      emailError := flagged;
    }
  }
}
