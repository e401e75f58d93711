/** The registration form: field validation in a fixed order, the registration request,
    then a four-box one-time-password entry and its verification request. */
module Register {
  import opened Options
  import opened Strings

  // ---------------------------------------------------------------- email

  /** The characters matched by `\s` in a JavaScript regular expression. */
  predicate IsJsWhitespace(c: char) {
    c == '\t' || c == '\n' || c == '\U{000B}' || c == '\U{000C}' || c == '\r' || c == ' '
    || c == '\U{00A0}' || c == '\U{1680}' || ('\U{2000}' <= c <= '\U{200A}')
    || c == '\U{2028}' || c == '\U{2029}' || c == '\U{202F}' || c == '\U{205F}'
    || c == '\U{3000}' || c == '\U{FEFF}'
  }

  /** A character of the class `[^\s@]`. */
  predicate Plain(c: char) {
    !IsJsWhitespace(c) && c != '@'
  }

  predicate AllPlain(s: string) {
    forall k :: 0 <= k < |s| ==> Plain(s[k])
  }

  /** `^[^\s@]+@[^\s@]+\.[^\s@]+$` read structurally: `s` is `A@B.C` with `A`, `B`, `C`
      non-empty runs of `[^\s@]`, the `@` at `i` and the `.` at `j`. The regex can pick any
      such `.` by backtracking, hence the existential. */
  predicate EmailRegexMatches(s: string) {
    exists i, j :: 0 < i && i + 1 < j && j + 1 < |s| && s[i] == '@' && s[j] == '.'
      && AllPlain(s[..i]) && AllPlain(s[i + 1..j]) && AllPlain(s[j + 1..])
  }

  predicate NoWhitespace(s: string) {
    forall k :: 0 <= k < |s| ==> !IsJsWhitespace(s[k])
  }

  /** The only `@` of `s` is at `i`. */
  predicate OnlyAtSign(s: string, i: nat) {
    forall k :: 0 <= k < |s| && k != i ==> s[k] != '@'
  }

  /** The domain has a `.` that is neither its first nor its last character. */
  predicate InnerDot(d: string) {
    exists k :: 0 < k < |d| - 1 && d[k] == '.'
  }

  /** What an acceptable address looks like: no whitespace, exactly one `@` with something
      before it, and an inner `.` after it. */
  predicate EmailShape(s: string) {
    NoWhitespace(s) && exists i :: 0 < i < |s| && s[i] == '@' && OnlyAtSign(s, i) && InnerDot(s[i + 1..])
  }

  /** The regex accepts exactly the addresses of that shape. */
  lemma EmailRegexCharacterized(s: string)
    ensures EmailRegexMatches(s) <==> EmailShape(s)
  {
    if EmailRegexMatches(s) {
      RegexGivesShape(s);
    }
    if EmailShape(s) {
      ShapeGivesRegex(s);
    }
  }

  lemma RegexGivesShape(s: string)
    requires EmailRegexMatches(s)
    ensures EmailShape(s)
  {
    var i, j :| 0 < i && i + 1 < j && j + 1 < |s| && s[i] == '@' && s[j] == '.'
      && AllPlain(s[..i]) && AllPlain(s[i + 1..j]) && AllPlain(s[j + 1..]);
    var a, b, c := s[..i], s[i + 1..j], s[j + 1..];
    forall k | 0 <= k < |s| ensures !IsJsWhitespace(s[k]) && (k != i ==> s[k] != '@') {
      if k < i {
        assert s[k] == a[k] && Plain(a[k]);
      } else if i < k < j {
        assert s[k] == b[k - i - 1] && Plain(b[k - i - 1]);
      } else if j < k {
        assert s[k] == c[k - j - 1] && Plain(c[k - j - 1]);
      }
    }
    assert NoWhitespace(s) && OnlyAtSign(s, i);
    var d := s[i + 1..];
    assert d[j - i - 1] == '.';
    assert InnerDot(d);
  }

  lemma ShapeGivesRegex(s: string)
    requires EmailShape(s)
    ensures EmailRegexMatches(s)
  {
    var i :| 0 < i < |s| && s[i] == '@' && OnlyAtSign(s, i) && InnerDot(s[i + 1..]);
    var d := s[i + 1..];
    var k :| 0 < k < |d| - 1 && d[k] == '.';
    var j := i + 1 + k;
    assert s[j] == '.';
    var a, b, c := s[..i], s[i + 1..j], s[j + 1..];
    forall m | 0 <= m < |a| ensures Plain(a[m]) {
      PlainAt(s, i, m);
      assert a[m] == s[m];
    }
    forall m | 0 <= m < |b| ensures Plain(b[m]) {
      PlainAt(s, i, i + 1 + m);
      assert b[m] == s[i + 1 + m];
    }
    forall m | 0 <= m < |c| ensures Plain(c[m]) {
      PlainAt(s, i, j + 1 + m);
      assert c[m] == s[j + 1 + m];
    }
    assert 0 < i && i + 1 < j && j + 1 < |s| && s[i] == '@' && s[j] == '.';
    assert AllPlain(a) && AllPlain(b) && AllPlain(c);
  }

  lemma PlainAt(s: string, i: nat, m: nat)
    requires NoWhitespace(s) && OnlyAtSign(s, i) && m < |s| && m != i
    ensures Plain(s[m])
  {
  }

  /** `isValidEmail`. */
  predicate IsValidEmail(email: string) {
    EmailRegexMatches(email)
  }

  /** A plain address passes; a domain whose only dot ends it or starts it does not, nor does
      an address with a second `@` or a space. */
  lemma EmailSamples()
    ensures IsValidEmail("a@b.c")
    ensures !IsValidEmail("a@b.") && !IsValidEmail("a@.c")
    ensures !IsValidEmail("a@b@c.d") && !IsValidEmail("a b@c.d")
  {
    var s := "a@b.c";
    assert s[1] == '@' && s[3] == '.';
    assert s[..1] == "a" && s[2..3] == "b" && s[4..] == "c";
    assert AllPlain(s[..1]) && AllPlain(s[2..3]) && AllPlain(s[4..]);
    NotEmail("a@b.", 1);
    NotEmail("a@.c", 1);
    var t := "a@b@c.d";
    EmailRegexCharacterized(t);
    forall i | 0 < i < |t| && t[i] == '@' ensures !OnlyAtSign(t, i) {
      assert t[1] == '@' && t[3] == '@';
    }
    var u := "a b@c.d";
    EmailRegexCharacterized(u);
    assert IsJsWhitespace(u[1]);
  }

  /** An address whose one `@` is at `i` and whose domain has no inner dot is refused. */
  lemma NotEmail(s: string, i: nat)
    requires i < |s| && s[i] == '@' && OnlyAtSign(s, i) && !InnerDot(s[i + 1..])
    ensures !IsValidEmail(s)
  {
    EmailRegexCharacterized(s);
  }

  // ---------------------------------------------------------------- phone

  /** `/^[6-9]\d{9}$/`: ten ASCII digits, the first from 6 to 9. */
  predicate IsValidPhone(tel: string) {
    |tel| == 10 && '6' <= tel[0] <= '9' && AllDigits(tel)
  }

  lemma PhoneSamples()
    ensures IsValidPhone("9876543210")
    ensures !IsValidPhone("5876543210")
    ensures !IsValidPhone("987654321")
    ensures !IsValidPhone("+919876543")
  {
  }

  // ---------------------------------------------------------------- the submit cascade

  datatype User = User(name: string, gender: string, dob: string, tel: string, email: string)

  const FillAllFields := "Please fill all required fields."
  const BadPhone := "Enter a valid 10-digit mobile number."
  const BadEmail := "Please enter a valid email address."
  const NoConsent := "You must agree to the Terms and Privacy Policy."

  /** The checks `handleSubmit` makes before any request, in order; the first that fails
      gives its message, and `None` means the form may be sent. */
  function SubmitCheck(user: User, consent: bool): (r: Option<string>)
    ensures r.None? <==> user.name != "" && user.email != "" && user.tel != ""
                         && IsValidPhone(user.tel) && IsValidEmail(user.email) && consent
    ensures (user.name == "" || user.email == "" || user.tel == "") ==> r == Some(FillAllFields)
    ensures user.name != "" && user.email != "" && user.tel != "" && !IsValidPhone(user.tel) ==> r == Some(BadPhone)
    ensures (user.name != "" && user.email != "" && user.tel != "" && IsValidPhone(user.tel)
             && !IsValidEmail(user.email)) ==> r == Some(BadEmail)
    ensures (user.name != "" && user.email != "" && user.tel != "" && IsValidPhone(user.tel)
             && IsValidEmail(user.email) && !consent) ==> r == Some(NoConsent)
    ensures r == Some(BadEmail) ==> IsValidPhone(user.tel) && !IsValidEmail(user.email)
    ensures r == Some(NoConsent) ==> IsValidPhone(user.tel) && IsValidEmail(user.email) && !consent
  {
    if user.name == "" || user.email == "" || user.tel == "" then Some(FillAllFields)
    else if !IsValidPhone(user.tel) then Some(BadPhone)
    else if !IsValidEmail(user.email) then Some(BadEmail)
    else if !consent then Some(NoConsent)
    else None
  }

  /** Gender and date of birth are never checked. */
  lemma SubmitIgnoresGenderAndDob(user: User, consent: bool, gender: string, dob: string)
    ensures SubmitCheck(user.(gender := gender, dob := dob), consent) == SubmitCheck(user, consent)
  {
  }

  // ---------------------------------------------------------------- OTP entry

  /** `/^\d?$/`: the empty string or one digit. */
  predicate OtpInputOk(v: string) {
    v == "" || (|v| == 1 && IsDigit(v[0]))
  }

  const OtpLength: nat := 4

  function EmptyOtp(): (r: seq<string>)
    ensures |r| == OtpLength && forall i :: 0 <= i < |r| ==> r[i] == ""
  {
    ["", "", "", ""]
  }

  /** The code sent for verification: the four boxes joined with nothing between them. */
  function OtpCode(otp: seq<string>): string
    requires |otp| >= 1
  {
    Join(otp, "")
  }

  /** Four boxes of one digit each join into a four-digit code. */
  lemma {:induction false} OtpCodeDigits(otp: seq<string>)
    requires |otp| >= 1
    requires forall i :: 0 <= i < |otp| ==> |otp[i]| == 1 && IsDigit(otp[i][0])
    ensures |OtpCode(otp)| == |otp| && AllDigits(OtpCode(otp))
    ensures forall i :: 0 <= i < |otp| ==> OtpCode(otp)[i] == otp[i][0]
    decreases |otp|
  {
    if |otp| > 1 {
      OtpCodeDigits(otp[1..]);
      assert OtpCode(otp) == otp[0] + OtpCode(otp[1..]);
    }
  }

  /** `user.tel.slice(-4)`: the last four characters, or all of a shorter string. */
  function LastFour(s: string): (r: string)
    ensures |r| == if |s| < 4 then |s| else 4
    ensures r == s[|s| - |r|..]
  {
    if |s| < 4 then s else s[|s| - 4..]
  }

  /** The number shown on the verification screen. */
  function MaskedPhone(tel: string): (r: string)
    ensures |r| == 10 + |LastFour(tel)|
    ensures r[..10] == "+91 ******" && r[10..] == LastFour(tel)
    ensures IsValidPhone(tel) ==> |r| == 14 && r[10..] == tel[6..]
  {
    "+91 ******" + LastFour(tel)
  }

  // ---------------------------------------------------------------- the form state

  datatype Step = Registering | Verifying

  /** What the backend answered: a body with a `success` flag, or a failure carrying the
      server's message when it sent one. */
  datatype Response = Reply(success: bool) | Fault(message: Option<string>)

  datatype Request =
    | RegisterRequest(name: string, email: string, phone: string, gender: string, dob: string, consent: bool)
    | VerifyRequest(phone: string, otp: string)

  datatype Field = NameField | GenderField | DobField | TelField | EmailField

  /** `err.response?.data?.message || fallback`: an absent or empty message falls back. */
  function FaultMessage(message: Option<string>, fallback: string): (r: string)
    ensures message.Some? && message.value != "" ==> r == message.value
    ensures message.None? || message.value == "" ==> r == fallback
  {
    if message.Some? && message.value != "" then message.value else fallback
  }

  predicate AllFilled(otp: seq<string>) {
    forall i :: 0 <= i < |otp| ==> otp[i] != ""
  }

  class RegisterForm {
    var user: User
    var consent: bool
    var error: Option<string>
    var loading: bool
    var step: Step
    var otp: seq<string>
    /** Every request sent to the backend, in order. */
    var requests: seq<Request>
    /** Whether the page moved on to `/home`. */
    var navigatedHome: bool

    /** Four boxes, each empty or one digit. */
    predicate Valid()
      reads this
    {
      |otp| == OtpLength && forall i :: 0 <= i < |otp| ==> OtpInputOk(otp[i])
    }

    constructor()
      ensures user == User("", "", "", "", "") && !consent && error.None? && !loading
      ensures step == Registering && otp == EmptyOtp() && requests == [] && !navigatedHome
      ensures Valid()
    {
      user := User("", "", "", "", "");
      consent := false;
      error := None;
      loading := false;
      step := Registering;
      otp := EmptyOtp();
      requests := [];
      navigatedHome := false;
    }

    /** The register button is disabled while a request runs or consent is not given, so a
        click on the enabled button never meets the consent message. */
    function SubmitEnabled(): (r: bool)
      reads this
      ensures r <==> !loading && consent
      ensures r ==> SubmitCheck(user, consent) != Some(NoConsent)
    {
      !loading && consent
    }

    method HandleInputChange(field: Field, value: string)
      modifies this
      ensures field == NameField ==> user == old(user).(name := value)
      ensures field == GenderField ==> user == old(user).(gender := value)
      ensures field == DobField ==> user == old(user).(dob := value)
      ensures field == TelField ==> user == old(user).(tel := value)
      ensures field == EmailField ==> user == old(user).(email := value)
      ensures consent == old(consent) && error == old(error) && loading == old(loading) && step == old(step)
      ensures otp == old(otp) && requests == old(requests) && navigatedHome == old(navigatedHome)
    {
      match field {
        case NameField => user := user.(name := value);
        case GenderField => user := user.(gender := value);
        case DobField => user := user.(dob := value);
        case TelField => user := user.(tel := value);
        case EmailField => user := user.(email := value);
      }
    }

    method SetConsent(checked: bool)
      modifies this
      ensures consent == checked
      ensures user == old(user) && error == old(error) && loading == old(loading) && step == old(step)
      ensures otp == old(otp) && requests == old(requests) && navigatedHome == old(navigatedHome)
    {
      consent := checked;
    }

    /** Typing into box `index`: anything but "" or one digit is ignored; otherwise only that
        box changes, and focus moves to the next box after a digit unless this is the last. */
    method HandleOtpChange(index: nat, value: string) returns (focus: Option<nat>)
      requires Valid() && index < |otp|
      modifies this
      ensures !OtpInputOk(value) ==> otp == old(otp) && focus.None?
      ensures OtpInputOk(value) ==> otp == old(otp)[index := value]
      ensures focus.Some? <==> OtpInputOk(value) && value != "" && index < OtpLength - 1
      ensures focus.Some? ==> focus.value == index + 1 && focus.value < |otp|
      ensures user == old(user) && consent == old(consent) && error == old(error) && loading == old(loading)
      ensures step == old(step) && requests == old(requests) && navigatedHome == old(navigatedHome)
      ensures Valid()
    {
      if !OtpInputOk(value) {
        return None;
      }
      var newOtp := otp;
      newOtp := newOtp[index := value];
      otp := newOtp;
      if value != "" && index < |otp| - 1 {
        focus := Some(index + 1);
      } else {
        focus := None;
      }
    }

    /** Backspace in an empty box moves focus to the previous box, if there is one. */
    function OtpKeyDownFocus(index: nat, key: string): (focus: Option<nat>)
      reads this
      requires Valid() && index < |otp|
      ensures focus.Some? <==> key == "Backspace" && otp[index] == "" && index > 0
      ensures focus.Some? ==> focus.value + 1 == index
    {
      if key == "Backspace" && otp[index] == "" && index > 0 then Some(index - 1) else None
    }

    /** `handleSubmit`, with the backend's answer as a parameter: a failed check sets its
        message and sends nothing; otherwise one registration request carrying the form goes
        out, and only a successful reply moves on to verification. */
    method HandleSubmit(response: Response)
      requires Valid()
      modifies this
      ensures SubmitCheck(old(user), old(consent)).Some? ==>
        error == SubmitCheck(old(user), old(consent)) && requests == old(requests)
        && step == old(step) && loading == old(loading)
      ensures SubmitCheck(old(user), old(consent)).None? ==>
        requests == old(requests) + [RegisterRequest(user.name, user.email, user.tel, user.gender, user.dob, consent)]
        && !loading
        && (response == Reply(true) ==> step == Verifying)
        && (response != Reply(true) ==> step == old(step))
        && (response.Reply? ==> error.None?)
        && (response.Fault? ==> error == Some(FaultMessage(response.message, "Registration failed")))
      ensures user == old(user) && consent == old(consent) && otp == old(otp) && navigatedHome == old(navigatedHome)
      ensures Valid()
    {
      var check := SubmitCheck(user, consent);
      if check.Some? {
        error := check;
        return;
      }
      loading := true;
      error := None;
      requests := requests + [RegisterRequest(user.name, user.email, user.tel, user.gender, user.dob, consent)];
      match response {
        case Reply(success) =>
          if success {
            step := Verifying;
          }
        case Fault(message) =>
          error := Some(FaultMessage(message, "Registration failed"));
      }
      loading := false;
    }

    /** `validateOtp`, with the backend's answer as a parameter: an empty box stops it with a
        message; otherwise the joined four-digit code goes out with the phone number. */
    method ValidateOtp(response: Response)
      requires Valid()
      modifies this
      ensures user == old(user) && consent == old(consent) && otp == old(otp) && step == old(step)
      ensures Valid()
      ensures !AllFilled(old(otp)) ==>
        error == Some("Please enter complete OTP.") && requests == old(requests)
        && navigatedHome == old(navigatedHome) && loading == old(loading)
      ensures AllFilled(old(otp)) ==>
        |requests| == |old(requests)| + 1 && requests[..|old(requests)|] == old(requests)
        && requests[|old(requests)|] == VerifyRequest(user.tel, OtpCode(otp))
        && |OtpCode(otp)| == OtpLength && AllDigits(OtpCode(otp))
        && !loading
        && (navigatedHome <==> old(navigatedHome) || response == Reply(true))
        && (response.Reply? ==> error.None?)
        && (response.Fault? ==> error == Some(FaultMessage(response.message, "Invalid OTP")))
    {
      if exists i :: 0 <= i < |otp| && otp[i] == "" {
        error := Some("Please enter complete OTP.");
        return;
      }
      loading := true;
      error := None;
      OtpCodeDigits(otp);
      requests := requests + [VerifyRequest(user.tel, OtpCode(otp))];
      match response {
        case Reply(success) =>
          if success {
            navigatedHome := true;
          }
        case Fault(message) =>
          error := Some(FaultMessage(message, "Invalid OTP"));
      }
      loading := false;
    }

    /** "Edit phone number": back to the form with the boxes emptied and no error. */
    method HandleEditNumber()
      modifies this
      ensures otp == EmptyOtp() && error.None? && step == Registering
      ensures user == old(user) && consent == old(consent) && loading == old(loading)
      ensures requests == old(requests) && navigatedHome == old(navigatedHome)
      ensures Valid()
    {
      otp := EmptyOtp();
      error := None;
      step := Registering;
    }
  }
}
