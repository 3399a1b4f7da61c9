/** The login and registration form validator (validation.js): the rules table with its
    three patterns written out as string predicates, FormValidator.validateField with its
    fixed check order, and validateForm over every input. A form is its inputs in document
    order, each a name and the text of its value; the CSS classes and the error element are
    represented by the result of each check. */
module Validation {
  import opened Text
  import opened Js
  import opened Seqs

  // ---------------------------------------------------------------------------
  // The email pattern /^[^\s@]+@[^\s@]+\.[^\s@]+$/
  // ---------------------------------------------------------------------------

  /** `[^\s@]`: neither whitespace (\s is the set trim removes) nor '@'. */
  predicate EmailChar(c: char) {
    !IsJsWhitespace(c) && c != '@'
  }

  /** `[^\s@]+` */
  predicate EmailRun(t: string) {
    |t| > 0 && forall k :: 0 <= k < |t| ==> EmailChar(t[k])
  }

  /** The pattern read as the regular expression reads: a run, '@', a run, '.', a run. The
      runs may hold dots, so any dot after the '@' that leaves text on both sides will do. */
  ghost predicate EmailRegex(s: string) {
    exists i, j :: 0 <= i < j < |s| && s[i] == '@' && s[j] == '.'
                   && EmailRun(s[..i]) && EmailRun(s[i + 1..j]) && EmailRun(s[j + 1..])
  }

  /** The same test as a scan: no whitespace at all, a first '@' after at least one
      character and no second one, and a '.' with text on both sides after the '@'. */
  predicate IsValidEmail(s: string) {
    var at := FindIndex(s, (c: char) => c == '@');
    0 < at && at + 3 < |s|
    && (forall k :: 0 <= k < |s| ==> !IsJsWhitespace(s[k]))
    && '@' !in s[at + 1..]
    && '.' in s[at + 2..|s| - 1]
  }

  lemma EmailRunOfSlice(s: string, from: int, to: int)
    requires 0 <= from < to <= |s|
    requires forall k :: 0 <= k < |s| ==> !IsJsWhitespace(s[k])
    requires '@' !in s[from..to]
    ensures EmailRun(s[from..to])
  {
    forall k | 0 <= k < to - from
      ensures EmailChar(s[from..to][k])
    {
      assert s[from..to][k] == s[from + k];
    }
  }

  lemma EmailCheckSound(s: string)
    requires IsValidEmail(s)
    ensures EmailRegex(s)
  {
    var at := FindIndex(s, (c: char) => c == '@');
    var tail := s[at + 2..|s| - 1];
    var p :| 0 <= p < |tail| && tail[p] == '.';
    var j := at + 2 + p;
    assert s[j] == tail[p];
    assert '@' !in s[..at] by {
      forall k | 0 <= k < at ensures s[..at][k] != '@' { assert s[..at][k] == s[k]; }
    }
    assert s[..at] == s[0..at];
    EmailRunOfSlice(s, 0, at);
    var after := s[at + 1..];
    assert forall k :: at + 1 <= k < |s| ==> s[k] != '@' by {
      forall k | at + 1 <= k < |s| ensures s[k] != '@' { assert s[k] == after[k - at - 1]; }
    }
    EmailRunOfSlice(s, at + 1, j);
    EmailRunOfSlice(s, j + 1, |s|);
    assert s[j + 1..] == s[j + 1..|s|];
  }

  lemma EmailCheckFromChars(s: string, i: int, j: int)
    requires 0 < i && i + 1 < j && j + 1 < |s| && s[i] == '@' && s[j] == '.'
    requires forall k :: 0 <= k < |s| && k != i ==> EmailChar(s[k])
    ensures IsValidEmail(s)
  {
    var at := FindIndex(s, (c: char) => c == '@');
    assert at == i;
    var after := s[i + 1..];
    assert '@' !in after by {
      forall k | 0 <= k < |after| ensures after[k] != '@' { assert after[k] == s[i + 1 + k]; }
    }
    assert s[i + 2..|s| - 1][j - i - 2] == '.';
  }

  lemma EmailCheckComplete(s: string)
    requires EmailRegex(s)
    ensures IsValidEmail(s)
  {
    var i, j :| 0 <= i < j < |s| && s[i] == '@' && s[j] == '.'
                && EmailRun(s[..i]) && EmailRun(s[i + 1..j]) && EmailRun(s[j + 1..]);
    var a, b, c := s[..i], s[i + 1..j], s[j + 1..];
    forall k | 0 <= k < |s| && k != i
      ensures EmailChar(s[k])
    {
      if k < i {
        assert s[k] == a[k];
      } else if k < j {
        assert s[k] == b[k - i - 1];
      } else if k > j {
        assert s[k] == c[k - j - 1];
      }
    }
    EmailCheckFromChars(s, i, j);
  }

  /** The scan accepts exactly the strings the regular expression matches. */
  lemma EmailCheckMatchesRegex(s: string)
    ensures IsValidEmail(s) <==> EmailRegex(s)
  {
    if IsValidEmail(s) {
      EmailCheckSound(s);
    }
    if EmailRegex(s) {
      EmailCheckComplete(s);
    }
  }

  // ---------------------------------------------------------------------------
  // The password pattern
  // /^(?=.*[a-z])(?=.*[A-Z])(?=.*\d)(?=.*[@$!%*?&])[A-Za-z\d@$!%*?&]{8,}$/
  // ---------------------------------------------------------------------------

  predicate IsLowerAscii(c: char) { 'a' <= c <= 'z' }
  predicate IsUpperAscii(c: char) { 'A' <= c <= 'Z' }
  predicate IsSpecial(c: char) { c in "@$!%*?&" }

  /** `[A-Za-z\d@$!%*?&]` */
  predicate PasswordChar(c: char) {
    IsLowerAscii(c) || IsUpperAscii(c) || IsDigit(c) || IsSpecial(c)
  }

  predicate Has(s: string, p: char -> bool) {
    exists k :: 0 <= k < |s| && p(s[k])
  }

  /** Eight or more characters of the class, with a lower-case letter, an upper-case letter,
      a digit and a special character among them. The lookaheads' `.` stops at line
      terminators, but the class admits none, so the lookaheads range over the whole text. */
  predicate IsValidPassword(s: string) {
    |s| >= 8 && (forall k :: 0 <= k < |s| ==> PasswordChar(s[k]))
    && Has(s, IsLowerAscii) && Has(s, IsUpperAscii) && Has(s, IsDigit) && Has(s, IsSpecial)
  }

  /** `pattern.test(value)` for the password: one left-to-right pass that records which of
      the four kinds it has seen and whether every character was in the class. */
  method PasswordPatternTest(s: string) returns (ok: bool)
    ensures ok == IsValidPassword(s)
  {
    var lower, upper, digit, special, inClass := false, false, false, false, true;
    var i := 0;
    while i < |s|
      invariant 0 <= i <= |s|
      invariant lower == exists k :: 0 <= k < i && IsLowerAscii(s[k])
      invariant upper == exists k :: 0 <= k < i && IsUpperAscii(s[k])
      invariant digit == exists k :: 0 <= k < i && IsDigit(s[k])
      invariant special == exists k :: 0 <= k < i && IsSpecial(s[k])
      invariant inClass == forall k :: 0 <= k < i ==> PasswordChar(s[k])
    {
      var c := s[i];
      lower := lower || IsLowerAscii(c);
      upper := upper || IsUpperAscii(c);
      digit := digit || IsDigit(c);
      special := special || IsSpecial(c);
      inClass := inClass && PasswordChar(c);
      i := i + 1;
    }
    ok := |s| >= 8 && inClass && lower && upper && digit && special;
  }

  lemma PasswordExamples()
    ensures IsValidPassword("Passw0rd!")
    ensures !IsValidPassword("Password1")
    ensures !IsValidPassword("Pass w0rd!")
    ensures !IsValidPassword("Pa0!")
  {
    var s := "Passw0rd!";
    assert IsLowerAscii(s[1]) && IsUpperAscii(s[0]) && IsDigit(s[5]) && IsSpecial(s[8]);
    var t := "Password1";
    assert forall k :: 0 <= k < |t| ==> !IsSpecial(t[k]);
    var u := "Pass w0rd!";
    assert !PasswordChar(u[4]);
  }

  // ---------------------------------------------------------------------------
  // The full-name pattern /^[a-zA-Z\s]{2,}$/
  // ---------------------------------------------------------------------------

  /** Two or more characters, each an ASCII letter or whitespace. */
  predicate IsValidFullName(s: string) {
    |s| >= 2 && forall k :: 0 <= k < |s| ==> IsLowerAscii(s[k]) || IsUpperAscii(s[k]) || IsJsWhitespace(s[k])
  }

  // ---------------------------------------------------------------------------
  // Rules and the field check
  // ---------------------------------------------------------------------------

  datatype Pattern = EmailPattern | PasswordPattern | FullNamePattern

  function Test(p: Pattern, s: string): bool {
    match p
    case EmailPattern => IsValidEmail(s)
    case PasswordPattern => IsValidPassword(s)
    case FullNamePattern => IsValidFullName(s)
  }

  /** One entry of the rules object; a minLength of 0 is absent (0 is falsy). */
  datatype Rules = Rules(required: bool, minLength: nat, pattern: Option<Pattern>, matchField: Option<string>, message: string)

  /** An input: its name attribute and the text of its value. */
  datatype Input = Input(name: string, value: string)

  /** What validateField reports: the validity and the text of the error element. */
  datatype Check = Check(valid: bool, message: string)

  const RequiredMessage := "This field is required"

  function MinLengthMessage(n: nat): string {
    "Minimum " + NatToString(n) + " characters required"
  }

  const EmailRules := Rules(true, 0, Some(EmailPattern), None, "Please enter a valid email address")
  const PasswordRules := Rules(true, 8, Some(PasswordPattern), None,
    "Password must be at least 8 characters long and contain uppercase, lowercase, number and special character")
  const FullNameRules := Rules(true, 2, Some(FullNamePattern), None, "Please enter your full name (minimum 2 characters)")
  const ConfirmPasswordRules := Rules(true, 0, None, Some("password"), "Passwords do not match")
  const TermsRules := Rules(true, 0, None, None, "You must accept the terms and conditions")

  /** validationRules, used whole by the registration form. */
  const RegisterRules: map<string, Rules> := map[
    "email" := EmailRules, "password" := PasswordRules, "fullName" := FullNameRules,
    "confirmPassword" := ConfirmPasswordRules, "terms" := TermsRules]

  /** The login form checks only the email and the password. */
  const LoginRules: map<string, Rules> := map["email" := EmailRules, "password" := PasswordRules]

  predicate RequiredFails(rules: Rules, v: string) { rules.required && IsBlank(v) }
  predicate MinLengthFails(rules: Rules, v: string) { rules.minLength > 0 && |v| < rules.minLength }
  predicate PatternFails(rules: Rules, v: string) { rules.pattern.Some? && !Test(rules.pattern.value, v) }

  /** `form.querySelector('[name="..."]')`: the first input with that name. */
  function Named(form: seq<Input>, name: string): int {
    FindIndex(form, (x: Input) => x.name == name)
  }

  /** validateField: a field without rules is valid; otherwise the checks run in the order
      required (on the trimmed text), minLength (on the raw text), pattern, match, and the
      first that fails decides the message. Reading the value of a missing match field
      throws. */
  function ValidateField(form: seq<Input>, table: map<string, Rules>, field: Input): (r: Outcome<Check>)
    ensures field.name !in table ==> r == Ok(Check(true, ""))
    ensures field.name in table && RequiredFails(table[field.name], field.value) ==>
      r == Ok(Check(false, RequiredMessage))
    ensures (field.name in table && !RequiredFails(table[field.name], field.value)
             && MinLengthFails(table[field.name], field.value)) ==>
      r == Ok(Check(false, MinLengthMessage(table[field.name].minLength)))
    ensures (field.name in table && !RequiredFails(table[field.name], field.value)
             && !MinLengthFails(table[field.name], field.value) && PatternFails(table[field.name], field.value)) ==>
      r == Ok(Check(false, table[field.name].message))
    ensures r.Throws? <==> (field.name in table && table[field.name].matchField.Some?
      && !RequiredFails(table[field.name], field.value) && !MinLengthFails(table[field.name], field.value)
      && !PatternFails(table[field.name], field.value) && Named(form, table[field.name].matchField.value) == -1)
    ensures r.Ok? && field.name in table ==>
      (r.value.valid <==> (!RequiredFails(table[field.name], field.value) && !MinLengthFails(table[field.name], field.value)
        && !PatternFails(table[field.name], field.value)
        && (table[field.name].matchField.None?
            || field.value == form[Named(form, table[field.name].matchField.value)].value)))
    ensures r.Ok? && r.value.valid ==> r.value.message == ""
  {
    if field.name !in table then Ok(Check(true, ""))
    else
      var rules := table[field.name];
      if RequiredFails(rules, field.value) then Ok(Check(false, RequiredMessage))
      else if MinLengthFails(rules, field.value) then Ok(Check(false, MinLengthMessage(rules.minLength)))
      else if PatternFails(rules, field.value) then Ok(Check(false, rules.message))
      else if rules.matchField.Some? then
        var at := Named(form, rules.matchField.value);
        if at == -1 then Throws("TypeError")
        else if field.value != form[at].value then Ok(Check(false, rules.message))
        else Ok(Check(true, ""))
      else Ok(Check(true, ""))
  }

  /** The checks of a sequence of inputs, every one of them run; the first throw aborts. */
  function ValidateAll(form: seq<Input>, table: map<string, Rules>, inputs: seq<Input>): (r: Outcome<seq<Check>>)
    ensures r.Ok? <==> forall k :: 0 <= k < |inputs| ==> ValidateField(form, table, inputs[k]).Ok?
    ensures r.Ok? ==> (|r.value| == |inputs|
                       && forall k :: 0 <= k < |inputs| ==> ValidateField(form, table, inputs[k]) == Ok(r.value[k]))
  {
    if |inputs| == 0 then Ok([])
    else match ValidateField(form, table, inputs[0])
      case Throws(e) => Throws(e)
      case Ok(c) =>
        match ValidateAll(form, table, inputs[1..])
        case Throws(e) =>
          assert !forall k :: 0 <= k < |inputs| ==> ValidateField(form, table, inputs[k]).Ok? by {
            var j :| 0 <= j < |inputs[1..]| && !ValidateField(form, table, inputs[1..][j]).Ok?;
            assert inputs[j + 1] == inputs[1..][j];
          }
          Throws(e)
        case Ok(rest) =>
          assert forall k :: 1 <= k < |inputs| ==> inputs[k] == inputs[1..][k - 1];
          Ok([c] + rest)
  }

  /** validateForm: every input of the form is checked (each gets its own message, with no
      short-circuit), and the form is valid exactly when every check passed. */
  function ValidateForm(form: seq<Input>, table: map<string, Rules>): (r: Outcome<(bool, seq<Check>)>)
    ensures r.Ok? <==> forall k :: 0 <= k < |form| ==> ValidateField(form, table, form[k]).Ok?
    ensures r.Ok? ==> (|r.value.1| == |form|
                       && (forall k :: 0 <= k < |form| ==> ValidateField(form, table, form[k]) == Ok(r.value.1[k]))
                       && (r.value.0 <==> forall k :: 0 <= k < |form| ==> r.value.1[k].valid))
  {
    match ValidateAll(form, table, form)
    case Throws(e) => Throws(e)
    case Ok(checks) => Ok((forall k :: 0 <= k < |checks| ==> checks[k].valid, checks))
  }

  // ---------------------------------------------------------------------------
  // What the fixed tables accept
  // ---------------------------------------------------------------------------

  lemma NotBlankWith(s: string, k: int)
    requires 0 <= k < |s| && !IsJsWhitespace(s[k])
    ensures !IsBlank(s)
  {
    BlankIffAllWhitespace(s);
  }

  /** An email field is valid exactly when the email pattern matches. */
  lemma EmailFieldIff(form: seq<Input>, v: string)
    ensures ValidateField(form, RegisterRules, Input("email", v)).Ok?
    ensures ValidateField(form, RegisterRules, Input("email", v)).value.valid <==> EmailRegex(v)
  {
    EmailCheckMatchesRegex(v);
    if IsValidEmail(v) {
      NotBlankWith(v, 0);
    }
  }

  /** A password field is valid exactly when the password pattern matches; the required
      and length checks add nothing to it, they only pick the message. */
  lemma PasswordFieldIff(form: seq<Input>, v: string)
    ensures ValidateField(form, LoginRules, Input("password", v)).Ok?
    ensures ValidateField(form, LoginRules, Input("password", v)).value.valid <==> IsValidPassword(v)
  {
    assert LoginRules["password"] == PasswordRules;
    FieldWithoutMatch(form, LoginRules, Input("password", v));
    PasswordRulesIff(v);
  }

  /** A field whose rules name no other field never throws, and is valid exactly when the
      required, length and pattern checks all pass. */
  lemma FieldWithoutMatch(form: seq<Input>, table: map<string, Rules>, field: Input)
    requires field.name in table && table[field.name].matchField.None?
    ensures ValidateField(form, table, field).Ok?
    ensures ValidateField(form, table, field).value.valid <==>
      var rules := table[field.name];
      !RequiredFails(rules, field.value) && !MinLengthFails(rules, field.value) && !PatternFails(rules, field.value)
  {}

  /** The password rules pass exactly when the password pattern matches. */
  lemma PasswordRulesIff(v: string)
    ensures !RequiredFails(PasswordRules, v) && !MinLengthFails(PasswordRules, v) && !PatternFails(PasswordRules, v)
      <==> IsValidPassword(v)
  {
    if IsValidPassword(v) {
      var k :| 0 <= k < |v| && IsLowerAscii(v[k]);
      NotBlankWith(v, k);
    }
  }

  /** A full-name field is valid exactly when the name pattern matches and the text is not
      all whitespace (the pattern alone would admit two spaces). */
  lemma FullNameFieldIff(form: seq<Input>, v: string)
    ensures ValidateField(form, RegisterRules, Input("fullName", v)).Ok?
    ensures ValidateField(form, RegisterRules, Input("fullName", v)).value.valid <==> IsValidFullName(v) && !IsBlank(v)
  {
    assert RegisterRules["fullName"] == FullNameRules;
    FieldWithoutMatch(form, RegisterRules, Input("fullName", v));
  }

  /** The confirmation is checked against the first input named password: it is valid
      exactly when it is not blank and equal to that input's text. With no such input the
      check throws, once the confirmation is non-blank. */
  lemma ConfirmPasswordIff(form: seq<Input>, v: string)
    requires Named(form, "password") != -1
    ensures ValidateField(form, RegisterRules, Input("confirmPassword", v)).Ok?
    ensures ValidateField(form, RegisterRules, Input("confirmPassword", v)).value.valid
      <==> !IsBlank(v) && v == form[Named(form, "password")].value
  {}

  /** The order of the checks decides the message: a short non-blank password is reported
      as too short rather than as not matching the pattern. */
  lemma ShortPasswordReportsLength(form: seq<Input>)
    ensures ValidateField(form, RegisterRules, Input("password", "abc")) == Ok(Check(false, "Minimum 8 characters required"))
  {
    assert RegisterRules["password"] == PasswordRules;
    NotBlankWith("abc", 0);
    assert NatToString(8) == "8";
    assert MinLengthMessage(8) == "Minimum 8 characters required";
  }

  /** A blank confirmation is reported as required, even when the password is blank too
      and the two would match. */
  lemma BlankConfirmationReportsRequired(form: seq<Input>)
    requires Named(form, "password") != -1 && form[Named(form, "password")].value == ""
    ensures ValidateField(form, RegisterRules, Input("confirmPassword", "")) == Ok(Check(false, RequiredMessage))
  {
    assert RegisterRules["confirmPassword"] == ConfirmPasswordRules;
    assert IsBlank("");
  }

  /** The login form has no rule for other inputs, so they never fail. */
  lemma LoginIgnoresOtherInputs(form: seq<Input>, name: string, v: string)
    requires name != "email" && name != "password"
    ensures ValidateField(form, LoginRules, Input(name, v)) == Ok(Check(true, ""))
  {}
}
