/** The demo request form of `src/app/demo/page.tsx`: four checked fields, two unchecked ones,
    the per-field errors and the submit gate. The form's React state is a class whose fields
    the handlers update. */
module DemoPage {
  import opened Wrappers
  import opened Text

  /** The three messages a field can show. */
  datatype ErrorKind = RequiredField | InvalidEmail | InvalidPhone

  /** The `errs` object: at most one error per checked field, `None` where the key is absent. */
  datatype FormErrors = FormErrors(
    companyName: Option<ErrorKind>,
    contactName: Option<ErrorKind>,
    email: Option<ErrorKind>,
    phone: Option<ErrorKind>)

  const NoErrors := FormErrors(None, None, None, None)

  /** `Object.keys(errs).length > 0`. */
  predicate HasErrors(e: FormErrors) {
    e.companyName.Some? || e.contactName.Some? || e.email.Some? || e.phone.Some?
  }

  /** `[^\s@]`: any character but whitespace and `@`. */
  predicate PlainChar(c: char) {
    !IsJsWhitespace(c) && c != '@'
  }

  predicate AllPlain(s: string) {
    forall i :: 0 <= i < |s| ==> PlainChar(s[i])
  }

  /** `^[^\s@]+@[^\s@]+\.[^\s@]+$` read as a pattern: three non-empty runs of plain characters
      joined by `@` and `.`. */
  ghost predicate EmailParts(s: string, user: string, host: string, tld: string) {
    && user != [] && host != [] && tld != []
    && AllPlain(user) && AllPlain(host) && AllPlain(tld)
    && s == user + "@" + host + "." + tld
  }

  ghost predicate EmailPattern(s: string) {
    exists user, host, tld :: EmailParts(s, user, host, tld)
  }

  /** The same test computed: a non-empty plain text before the first `@`, and after it a
      plain text with a `.` neither first nor last. */
  predicate MatchesEmail(s: string) {
    '@' in s &&
    var i := IndexOf(s, '@');
    var user, domain := s[..i], s[i + 1..];
    user != [] && AllPlain(user) && AllPlain(domain) && |domain| >= 3 && '.' in domain[1..|domain| - 1]
  }

  /** A string the computed test accepts splits into the three runs of the pattern. */
  lemma MatchesEmailHasParts(s: string)
    requires MatchesEmail(s)
    ensures EmailPattern(s)
  {
    var i := IndexOf(s, '@');
    var user, domain := s[..i], s[i + 1..];
    var inner := domain[1..|domain| - 1];
    var j :| 0 <= j < |inner| && inner[j] == '.';
    var host, tld := domain[..j + 1], domain[j + 2..];
    assert domain == host + "." + tld;
    assert s == user + "@" + domain;
    JoinParts(s, user, domain, host, tld);
    PlainSlice(domain, 0, j + 1);
    PlainSlice(domain, j + 2, |domain|);
    assert user != [] && host != [] && tld != [];
    assert AllPlain(user) && AllPlain(host) && AllPlain(tld);
    assert EmailParts(s, user, host, tld);
  }

  /** Splitting the domain at a dot splits the whole address the same way. */
  lemma JoinParts(s: string, user: string, domain: string, host: string, tld: string)
    requires s == user + "@" + domain && domain == host + "." + tld
    ensures s == user + "@" + host + "." + tld
  {
    assert user + "@" + domain == (user + "@") + (host + "." + tld);
    assert (user + "@") + (host + "." + tld) == ((user + "@") + host + ".") + tld;
  }

  /** A piece of a string of plain characters is plain too. */
  lemma PlainSlice(s: string, lo: int, hi: int)
    requires AllPlain(s) && 0 <= lo <= hi <= |s|
    ensures AllPlain(s[lo..hi])
  {
    forall i | 0 <= i < hi - lo ensures PlainChar(s[lo..hi][i]) {
      assert s[lo..hi][i] == s[lo + i];
    }
  }

  /** A string of the pattern passes the computed test: its only `@` ends the first run. */
  lemma PartsMatchEmail(s: string, user: string, host: string, tld: string)
    requires EmailParts(s, user, host, tld)
    ensures MatchesEmail(s)
  {
    assert s[|user|] == '@';
    assert s[..|user|] == user;
    var i := IndexOf(s, '@');
    assert i == |user|;
    var domain := s[i + 1..];
    assert domain == host + "." + tld;
    assert domain[1..|domain| - 1][|host| - 1] == '.';
  }

  /** The computed test accepts exactly the strings of the pattern. */
  lemma MatchesEmailIffPattern(s: string)
    ensures MatchesEmail(s) <==> EmailPattern(s)
  {
    if MatchesEmail(s) {
      MatchesEmailHasParts(s);
    }
    if EmailPattern(s) {
      var user, host, tld :| EmailParts(s, user, host, tld);
      PartsMatchEmail(s, user, host, tld);
    }
  }

  /** An address of the pattern has a character that is not whitespace. */
  lemma PatternNotBlank(s: string)
    ensures EmailPattern(s) ==> !Blank(s)
  {
    if EmailPattern(s) {
      var user, host, tld :| EmailParts(s, user, host, tld);
      assert s[0] == user[0];
    }
  }

  /** `[\d\s\-+()]`. */
  predicate PhoneChar(c: char) {
    ('0' <= c <= '9') || IsJsWhitespace(c) || c == '-' || c == '+' || c == '(' || c == ')'
  }

  /** `^[\d\s\-+()]{7,20}$`. */
  predicate MatchesPhone(s: string) {
    7 <= |s| <= 20 && forall i :: 0 <= i < |s| ==> PhoneChar(s[i])
  }

  /** The check of a required field: `!value.trim()`. */
  function RequiredError(v: string): (r: Option<ErrorKind>)
    ensures r == Some(RequiredField) <==> Blank(v)
    ensures r.None? <==> !Blank(v)
  {
    if Blank(v) then Some(RequiredField) else None
  }

  /** The email check: required first, then the pattern on the untrimmed value. */
  function EmailError(v: string): (r: Option<ErrorKind>)
    ensures r == Some(RequiredField) <==> Blank(v)
    ensures r == Some(InvalidEmail) <==> !Blank(v) && !EmailPattern(v)
    ensures r.None? <==> EmailPattern(v)
  {
    MatchesEmailIffPattern(v);
    PatternNotBlank(v);
    if Blank(v) then Some(RequiredField)
    else if !MatchesEmail(v) then Some(InvalidEmail)
    else None
  }

  /** The phone check: required first, then the pattern on the untrimmed value. */
  function PhoneError(v: string): (r: Option<ErrorKind>)
    ensures r == Some(RequiredField) <==> Blank(v)
    ensures r == Some(InvalidPhone) <==> !Blank(v) && !MatchesPhone(v)
    ensures r.None? <==> !Blank(v) && MatchesPhone(v)
  {
    if Blank(v) then Some(RequiredField)
    else if !MatchesPhone(v) then Some(InvalidPhone)
    else None
  }

  /** The errors of a form; the company size and the needs do not take part. A form passes
      exactly when both names have a non-blank character, the email matches the pattern and
      the phone is 7 to 20 allowed characters, not all blank. */
  function ErrorsOf(companyName: string, contactName: string, email: string, phone: string): (r: FormErrors)
    ensures !HasErrors(r) <==>
      && !Blank(companyName) && !Blank(contactName)
      && EmailPattern(email)
      && !Blank(phone) && MatchesPhone(phone)
  {
    FormErrors(RequiredError(companyName), RequiredError(contactName), EmailError(email), PhoneError(phone))
  }

  /** The pattern sees the untrimmed value: a valid address with a space on either side is
      reported invalid, not missing. */
  lemma PaddedEmailIsInvalid(email: string)
    requires EmailPattern(email)
    ensures EmailError(" " + email) == Some(InvalidEmail)
    ensures EmailError(email + " ") == Some(InvalidEmail)
  {
    var user, host, tld :| EmailParts(email, user, host, tld);
    assert email[0] == user[0];
    var front, back := " " + email, email + " ";
    assert front[1] == email[0] && back[0] == email[0];
    EndsArePlain(front);
    EndsArePlain(back);
  }

  /** An address of the pattern starts and ends with a plain character. */
  lemma EndsArePlain(s: string)
    ensures EmailPattern(s) ==> s != [] && PlainChar(s[0]) && PlainChar(s[|s| - 1])
  {
    if EmailPattern(s) {
      var user, host, tld :| EmailParts(s, user, host, tld);
      assert s[0] == user[0];
      assert s[|s| - 1] == tld[|tld| - 1];
    }
  }

  class DemoForm {
    var companyName: string
    var contactName: string
    var email: string
    var phone: string
    var companySize: string
    var needs: string
    var errors: FormErrors
    var submitting: bool
    var submitted: bool

    /** Every field empty, no errors shown, nothing sent. */
    constructor ()
      ensures companyName == contactName == email == phone == companySize == needs == ""
      ensures errors == NoErrors && !submitting && !submitted
    {
      companyName, contactName, email, phone := "", "", "", "";
      companySize, needs := "", "";
      errors := NoErrors;
      submitting, submitted := false, false;
    }

    /** `validate`: the errors of the current field values, filled in field by field. */
    method Validate() returns (errs: FormErrors)
      ensures errs == ErrorsOf(companyName, contactName, email, phone)
    {
      errs := NoErrors;
      if Blank(companyName) {
        errs := errs.(companyName := Some(RequiredField));
      }
      if Blank(contactName) {
        errs := errs.(contactName := Some(RequiredField));
      }
      if Blank(email) {
        errs := errs.(email := Some(RequiredField));
      } else if !MatchesEmail(email) {
        errs := errs.(email := Some(InvalidEmail));
      }
      if Blank(phone) {
        errs := errs.(phone := Some(RequiredField));
      } else if !MatchesPhone(phone) {
        errs := errs.(phone := Some(InvalidPhone));
      }
    }

    /** `handleSubmit`: the errors are shown first; with none, the form is sent (the simulated
        request always succeeds) and the page turns to its thank-you state. */
    method HandleSubmit() returns (sent: bool)
      modifies this
      ensures errors == ErrorsOf(companyName, contactName, email, phone)
      ensures sent <==> !HasErrors(errors)
      ensures submitted == (old(submitted) || sent)
      ensures submitting == (if sent then false else old(submitting))
      ensures companyName == old(companyName) && contactName == old(contactName)
      ensures email == old(email) && phone == old(phone)
      ensures companySize == old(companySize) && needs == old(needs)
    {
      var errs := Validate();
      errors := errs;
      if HasErrors(errs) {
        return false;
      }
      submitting := true;
      submitting := false;
      submitted := true;
      sent := true;
    }
  }

  /** A submit with a blank company name shows the required message on it and sends nothing,
      whatever the other fields hold. */
  method SubmitWithoutCompany(form: DemoForm) returns (sent: bool)
    requires Blank(form.companyName)
    modifies form
    ensures !sent && form.errors.companyName == Some(RequiredField)
    ensures form.submitted == old(form.submitted)
  {
    sent := form.HandleSubmit();
  }
}
