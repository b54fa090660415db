/**
 * The booking form's client-side checks (`validateForm`): every field's
 * value is trimmed, then the rules run in a fixed order — required, email
 * pattern, 10-digit phone, not-in-the-past date — and the first rule that
 * rejects the field decides its message. The form is valid when no field
 * is rejected.
 */
module Validation {
  import opened Wrappers
  import opened Text

  /** A form control: its `type`, its `name`, its `required` flag and its raw value. */
  datatype Input = Input(kind: string, name: string, required: bool, value: string)

  /**
   * What the date rule needs from the browser: `new Date(value)` as a time
   * value (None for an Invalid Date), and the time value of today's local
   * midnight.
   */
  datatype DateEnv = DateEnv(parse: string -> Option<int>, todayMidnight: int)

  /** The outcome of checking one field: accepted, or the message shown under it. */
  datatype Verdict = Pass | Fail(message: string)

  const RequiredMessage := "This field is required"
  const EmailMessage := "Please enter a valid email address"
  const PhoneMessage := "Please enter a valid 10-digit phone number"
  const DateMessage := "Please select a future date"

  /** The phone number is exactly this many digits. */
  const PhoneDigits: nat := 10

  // ---------------------------------------------------------------------
  // The email pattern /^[^\s@]+@[^\s@]+\.[^\s@]+$/

  /** The character class [^\s@]. */
  predicate IsEmailChar(c: char) {
    !IsSpace(c) && c != '@'
  }

  predicate AllEmailChars(s: string) {
    forall i :: 0 <= i < |s| ==> IsEmailChar(s[i])
  }

  /**
   * The pattern's split of s: '@' at `at` and '.' at `dot`, with the three
   * runs before, between and after them non-empty and made of [^\s@].
   */
  predicate EmailSplit(s: string, at: nat, dot: nat) {
    1 <= at && at + 2 <= dot && dot + 2 <= |s| && s[at] == '@' && s[dot] == '.' &&
    AllEmailChars(s[..at]) && AllEmailChars(s[at + 1..dot]) && AllEmailChars(s[dot + 1..])
  }

  /** The strings the email pattern matches: those with a split. */
  ghost predicate MatchesEmailPattern(s: string) {
    exists at: nat, dot: nat :: EmailSplit(s, at, dot)
  }

  /** The position of the first occurrence of c, if any. */
  function IndexOf(s: string, c: char): (r: Option<nat>)
    ensures r.Some? ==> r.value < |s| && s[r.value] == c
    ensures r.Some? ==> forall i :: 0 <= i < r.value ==> s[i] != c
    ensures r.None? ==> forall i :: 0 <= i < |s| ==> s[i] != c
  {
    if s == [] then None
    else if s[0] == c then Some(0)
    else match IndexOf(s[1..], c)
      case None => None
      case Some(i) => Some(i + 1)
  }

  /** The domain part has a '.' that is neither its first nor its last character. */
  predicate HasInnerDot(domain: string) {
    |domain| >= 3 && '.' in domain[1..|domain| - 1]
  }

  /**
   * The email check stated directly: no white space, exactly one '@', a
   * non-empty part before it, and a domain with an inner '.'.
   */
  predicate IsValidEmail(s: string) {
    NoSpace(s) &&
    match IndexOf(s, '@')
    case None => false
    case Some(at) => 0 < at && '@' !in s[at + 1..] && HasInnerDot(s[at + 1..])
  }

  /** The position of a '.' that is neither first nor last. */
  lemma InnerDotAt(domain: string) returns (j: nat)
    requires HasInnerDot(domain)
    ensures 1 <= j < |domain| - 1 && domain[j] == '.'
  {
    var middle := domain[1..|domain| - 1];
    var k :| 0 <= k < |middle| && middle[k] == '.';
    j := k + 1;
  }

  /** What the email check accepts, the pattern matches. */
  lemma EmailCheckSound(s: string)
    requires IsValidEmail(s)
    ensures MatchesEmailPattern(s)
  {
    var at := IndexOf(s, '@').value;
    var domain := s[at + 1..];
    var j := InnerDotAt(domain);
    var dot := at + 1 + j;
    assert s[dot] == domain[j];
    assert forall i :: 0 <= i < |s| && i != at ==> s[i] != '@' by {
      forall i | 0 <= i < |s| && i != at
        ensures s[i] != '@'
      {
        if i > at {
          assert s[i] == domain[i - at - 1];
        }
      }
    }
    assert AllEmailChars(s[..at]);
    assert AllEmailChars(s[at + 1..dot]);
    assert AllEmailChars(s[dot + 1..]);
    assert EmailSplit(s, at, dot);
  }

  /** Under a split, the first '@' is the split's. */
  lemma SplitFirstAt(s: string, at: nat, dot: nat)
    requires EmailSplit(s, at, dot)
    ensures IndexOf(s, '@') == Some(at)
  {
    assert forall i :: 0 <= i < at ==> s[i] == s[..at][i];
  }

  /** Under a split, the domain after the '@' has no '@' and an inner '.'. */
  lemma SplitDomain(s: string, at: nat, dot: nat)
    requires EmailSplit(s, at, dot)
    ensures '@' !in s[at + 1..] && HasInnerDot(s[at + 1..])
  {
    var domain := s[at + 1..];
    forall i | 0 <= i < |domain|
      ensures domain[i] != '@'
    {
      if i < dot - at - 1 {
        assert domain[i] == s[at + 1..dot][i];
      } else if i > dot - at - 1 {
        assert domain[i] == s[dot + 1..][i - (dot - at)];
      }
    }
    assert domain[1..|domain| - 1][dot - at - 2] == '.';
  }

  /** Under a split, no character is white space. */
  lemma SplitNoSpace(s: string, at: nat, dot: nat)
    requires EmailSplit(s, at, dot)
    ensures NoSpace(s)
  {
    forall i | 0 <= i < |s|
      ensures !IsSpace(s[i])
    {
      if i < at {
        assert s[i] == s[..at][i];
      } else if at < i < dot {
        assert s[i] == s[at + 1..dot][i - at - 1];
      } else if dot < i {
        assert s[i] == s[dot + 1..][i - dot - 1];
      }
    }
  }

  /** What the pattern matches, the email check accepts. */
  lemma EmailCheckComplete(s: string)
    requires MatchesEmailPattern(s)
    ensures IsValidEmail(s)
  {
    var at: nat, dot: nat :| EmailSplit(s, at, dot);
    SplitFirstAt(s, at, dot);
    SplitDomain(s, at, dot);
    SplitNoSpace(s, at, dot);
  }

  /** The email check accepts exactly the strings the email pattern matches. */
  lemma EmailCheckMatchesPattern(s: string)
    ensures IsValidEmail(s) <==> MatchesEmailPattern(s)
  {
    if IsValidEmail(s) {
      EmailCheckSound(s);
    }
    if MatchesEmailPattern(s) {
      EmailCheckComplete(s);
    }
  }

  // ---------------------------------------------------------------------
  // The phone pattern /^[0-9]{10}$/

  /** Whether s, in full, matches [0-9]{count}. */
  function MatchesDigits(s: string, count: nat): (r: bool)
    ensures r <==> |s| == count && forall i :: 0 <= i < |s| ==> IsDigit(s[i])
  {
    if count == 0 then s == []
    else s != [] && IsDigit(s[0]) && MatchesDigits(s[1..], count - 1)
  }

  predicate IsValidPhone(s: string) {
    MatchesDigits(s, PhoneDigits)
  }

  // ---------------------------------------------------------------------
  // The rules and their order

  datatype Rule = RequiredRule | EmailRule | PhoneRule | DateRule

  /** The order in which `validateForm` applies the rules to a field. */
  const RuleOrder := [RequiredRule, EmailRule, PhoneRule, DateRule]

  /** `selectedDate < today`; an Invalid Date compares false, so it passes. */
  predicate IsPastDate(value: string, env: DateEnv)
    ensures IsPastDate(value, env) ==> env.parse(value).Some?
  {
    var t := env.parse(value);
    t.Some? && t.value < env.todayMidnight
  }

  /** Whether `rule` rejects the field whose trimmed value is `value`. */
  predicate Violates(rule: Rule, input: Input, value: string, env: DateEnv) {
    match rule
    case RequiredRule => input.required && value == []
    case EmailRule => input.kind == "email" && value != [] && !IsValidEmail(value)
    case PhoneRule => input.name == "phone" && value != [] && !IsValidPhone(value)
    case DateRule => input.kind == "date" && value != [] && IsPastDate(value, env)
  }

  function MessageOf(rule: Rule): string {
    match rule
    case RequiredRule => RequiredMessage
    case EmailRule => EmailMessage
    case PhoneRule => PhoneMessage
    case DateRule => DateMessage
  }

  /**
   * The reference reading of an ordered rule list: the verdict of the
   * first rule that rejects the field, or Pass when none does.
   */
  function FirstViolation(rules: seq<Rule>, input: Input, value: string, env: DateEnv): Verdict {
    if rules == [] then Pass
    else if Violates(rules[0], input, value, env) then Fail(MessageOf(rules[0]))
    else FirstViolation(rules[1..], input, value, env)
  }

  /** Rule k rejects the field and no earlier rule does. */
  predicate FirstRejectsAt(rules: seq<Rule>, k: nat, input: Input, value: string, env: DateEnv) {
    k < |rules| && Violates(rules[k], input, value, env) &&
    forall j :: 0 <= j < k ==> !Violates(rules[j], input, value, env)
  }

  /** The field passes when no rule rejects it; otherwise the first rejecting rule gives the message. */
  lemma {:induction false} FirstViolationSpec(rules: seq<Rule>, input: Input, value: string, env: DateEnv)
    ensures FirstViolation(rules, input, value, env).Pass? <==>
      forall k :: 0 <= k < |rules| ==> !Violates(rules[k], input, value, env)
    ensures FirstViolation(rules, input, value, env).Fail? ==>
      exists k: nat :: FirstRejectsAt(rules, k, input, value, env) &&
        FirstViolation(rules, input, value, env).message == MessageOf(rules[k])
  {
    if rules != [] {
      if Violates(rules[0], input, value, env) {
        assert FirstRejectsAt(rules, 0, input, value, env);
      } else {
        FirstViolationSpec(rules[1..], input, value, env);
        var v := FirstViolation(rules[1..], input, value, env);
        if v.Fail? {
          var k: nat :| FirstRejectsAt(rules[1..], k, input, value, env) && v.message == MessageOf(rules[1..][k]);
          assert FirstRejectsAt(rules, k + 1, input, value, env);
        }
      }
    }
  }

  /**
   * The checks of one field as the loop body writes them. A blank required
   * field fails with the required message and nothing else runs; a blank
   * optional field passes; otherwise the first failing rule decides.
   */
  function CheckInput(input: Input, env: DateEnv): (r: Verdict)
    ensures r.Fail? ==> r.message in [RequiredMessage, EmailMessage, PhoneMessage, DateMessage]
    ensures r.Fail? ==> input.required || Trim(input.value) != []
  {
    var value := Trim(input.value);
    if input.required && value == [] then Fail(RequiredMessage)
    else if input.kind == "email" && value != [] && !IsValidEmail(value) then Fail(EmailMessage)
    else if input.name == "phone" && value != [] && !IsValidPhone(value) then Fail(PhoneMessage)
    else if input.kind == "date" && value != [] && IsPastDate(value, env) then Fail(DateMessage)
    else Pass
  }

  /** The field checks apply the rules in RuleOrder and stop at the first that rejects. */
  lemma CheckInputFollowsRuleOrder(input: Input, env: DateEnv)
    ensures CheckInput(input, env) == FirstViolation(RuleOrder, input, Trim(input.value), env)
  {
    var value := Trim(input.value);
    assert RuleOrder[1..] == [EmailRule, PhoneRule, DateRule];
    assert [EmailRule, PhoneRule, DateRule][1..] == [PhoneRule, DateRule];
    assert [PhoneRule, DateRule][1..] == [DateRule];
    assert [DateRule][1..] == [];
    assert FirstViolation([DateRule], input, value, env) ==
      if Violates(DateRule, input, value, env) then Fail(DateMessage) else Pass;
    assert FirstViolation([PhoneRule, DateRule], input, value, env) ==
      if Violates(PhoneRule, input, value, env) then Fail(PhoneMessage)
      else FirstViolation([DateRule], input, value, env);
    assert FirstViolation([EmailRule, PhoneRule, DateRule], input, value, env) ==
      if Violates(EmailRule, input, value, env) then Fail(EmailMessage)
      else FirstViolation([PhoneRule, DateRule], input, value, env);
  }

  /** The required message is shown exactly for a required field that is blank after trimming. */
  lemma RequiredMessageExactly(input: Input, env: DateEnv)
    ensures CheckInput(input, env) == Fail(RequiredMessage) <==> input.required && Trim(input.value) == []
  {
  }

  /** Every verdict is Pass. */
  predicate AllPass(verdicts: seq<Verdict>) {
    forall i :: 0 <= i < |verdicts| ==> verdicts[i].Pass?
  }

  /** The verdict of each field, in form order. */
  function Verdicts(inputs: seq<Input>, env: DateEnv): (vs: seq<Verdict>)
    ensures |vs| == |inputs|
    ensures forall i :: 0 <= i < |inputs| ==> vs[i] == CheckInput(inputs[i], env)
  {
    if inputs == [] then [] else [CheckInput(inputs[0], env)] + Verdicts(inputs[1..], env)
  }

  /** Every field of the form passes its checks. */
  predicate FormPasses(inputs: seq<Input>, env: DateEnv) {
    AllPass(Verdicts(inputs, env))
  }

  /**
   * `validateForm` with every field's verdict reported: a missing form is
   * invalid; otherwise each field gets its own verdict and the form is
   * valid exactly when no field fails.
   */
  method ValidateForm(form: Option<seq<Input>>, env: DateEnv) returns (isValid: bool, verdicts: seq<Verdict>)
    ensures form.None? ==> !isValid && verdicts == []
    ensures form.Some? ==> verdicts == Verdicts(form.value, env)
    ensures form.Some? ==> (isValid <==> forall i :: 0 <= i < |verdicts| ==> !verdicts[i].Fail?)
  {
    if form.None? {
      return false, [];
    }
    var inputs := form.value;
    isValid := true;
    verdicts := [];
    for i := 0 to |inputs|
      invariant |verdicts| == i
      invariant forall k :: 0 <= k < i ==> verdicts[k] == CheckInput(inputs[k], env)
      invariant isValid <==> forall k :: 0 <= k < i ==> verdicts[k].Pass?
    {
      var v := CheckInput(inputs[i], env);
      if v.Fail? {
        isValid := false;
      }
      verdicts := verdicts + [v];
    }
    assert verdicts == Verdicts(inputs, env);
  }

  // ---------------------------------------------------------------------
  // The form check as written: `showError` reads `isFirstError`, which is a
  // local of `validateForm` and not in scope there, so its first call throws.

  /** How the call ends: a returned flag, or an exception at a field after its message is shown. */
  datatype Outcome = Returned(valid: bool) | Threw(failedAt: nat, message: string)

  /** The position of the first failing verdict, if any. */
  function FirstFail(verdicts: seq<Verdict>): (r: Option<nat>)
    ensures r.Some? ==> r.value < |verdicts| && verdicts[r.value].Fail?
    ensures r.Some? ==> forall k :: 0 <= k < r.value ==> verdicts[k].Pass?
    ensures r.None? <==> AllPass(verdicts)
  {
    if verdicts == [] then None
    else if verdicts[0].Fail? then Some(0)
    else match FirstFail(verdicts[1..])
      case None => None
      case Some(i) => Some(i + 1)
  }

  /**
   * `validateForm` as the code stands: it returns true when every field
   * passes, and otherwise shows the first failing field's message and then
   * throws a ReferenceError, so it never returns false for a present form.
   */
  function ValidateFormAsWritten(form: Option<seq<Input>>, env: DateEnv): (o: Outcome)
    ensures form.None? ==> o == Returned(false)
    ensures form.Some? ==> o != Returned(false)
    ensures form.Some? ==> (o == Returned(true) <==> FormPasses(form.value, env))
    ensures o.Threw? ==> (form.Some? && o.failedAt < |form.value| &&
      CheckInput(form.value[o.failedAt], env) == Fail(o.message))
    ensures o.Threw? ==> (form.Some? &&
      forall k :: 0 <= k < o.failedAt ==> CheckInput(form.value[k], env).Pass?)
  {
    match form
    case None => Returned(false)
    case Some(inputs) =>
      var verdicts := Verdicts(inputs, env);
      match FirstFail(verdicts)
      case None => Returned(true)
      case Some(i) => Threw(i, verdicts[i].message)
  }

  /**
   * A booking form whose required name is blank: the corrected check
   * reports the form invalid with the required message on that field,
   * whereas the code as written throws at that field instead of returning.
   */
  lemma BlankRequiredNameThrows(env: DateEnv)
    ensures !FormPasses([Input("text", "name", true, "  ")], env)
    ensures CheckInput(Input("text", "name", true, "  "), env) == Fail(RequiredMessage)
    ensures ValidateFormAsWritten(Some([Input("text", "name", true, "  ")]), env) == Threw(0, RequiredMessage)
  {
  }

  /** A blank optional field passes, whatever its type or name. */
  lemma BlankOptionalPasses(input: Input, env: DateEnv)
    requires !input.required && Trim(input.value) == []
    ensures CheckInput(input, env) == Pass
  {
  }

  /** A non-blank value in an email field (not named "phone") passes exactly when it matches the email pattern. */
  lemma EmailRuleExactly(input: Input, env: DateEnv)
    requires input.kind == "email" && input.name != "phone"
    requires Trim(input.value) != []
    ensures CheckInput(input, env).Pass? <==> IsValidEmail(Trim(input.value))
    ensures CheckInput(input, env).Pass? <==> MatchesEmailPattern(Trim(input.value))
  {
    EmailCheckMatchesPattern(Trim(input.value));
  }

  /** A non-blank value in the field named "phone" (of any type other than email) passes exactly when it is ten digits. */
  lemma PhoneRule10Digits(input: Input, env: DateEnv)
    requires input.name == "phone" && input.kind != "email" && input.kind != "date"
    requires Trim(input.value) != []
    ensures CheckInput(input, env).Pass? <==>
      |Trim(input.value)| == 10 && forall i :: 0 <= i < |Trim(input.value)| ==> '0' <= Trim(input.value)[i] <= '9'
  {
  }
}
