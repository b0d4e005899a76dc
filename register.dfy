/**
 * The registration form of the client: the email and phone patterns, the
 * rule-by-rule `validateForm`, and `updateFormData`, which edits one field and
 * clears that field's error.
 */
module Register {
  import opened JsString

  // ---------------------------------------------------------------------------
  // The email pattern `^[^\s@]+@[^\s@]+\.[^\s@]+$`

  /** `[^\s@]`: neither whitespace nor `@` (a dot is allowed). */
  predicate EmailChar(c: char) {
    !IsWhitespace(c) && c != '@'
  }

  /** `[^\s@]+` */
  predicate EmailWord(w: string) {
    |w| > 0 && forall k :: 0 <= k < |w| ==> EmailChar(w[k])
  }

  /** The part after `@`: `[^\s@]+\.[^\s@]+`, a word with a dot that is neither its first nor its last character. */
  predicate EmailDomain(d: string) {
    EmailWord(d) && |d| >= 3 && '.' in d[1..|d| - 1]
  }

  /** The index of the first `c` in `s`, or `|s|` when there is none. */
  function IndexOf(s: string, c: char): (i: nat)
    ensures i <= |s| && (i < |s| ==> s[i] == c)
    ensures forall k :: 0 <= k < i ==> s[k] != c
  {
    if s == [] || s[0] == c then 0 else 1 + IndexOf(s[1..], c)
  }

  /**
   * `validateEmail`. The local part cannot contain `@`, so the `@` of the
   * pattern is the first one: the text before it must be a word and the
   * text after it a dotted domain. The shortest address it accepts, `a@b.c`,
   * has five characters, and an accepted address neither starts nor ends with `@`.
   */
  function ValidateEmail(email: string): (b: bool)
    ensures b ==> |email| >= 5 && email[0] != '@' && email[|email| - 1] != '@'
  {
    var at := IndexOf(email, '@');
    at < |email| && EmailWord(email[..at]) && EmailDomain(email[at + 1..])
  }

  /** The regular expression read as a grammar: `X@Y.Z` with three words free of whitespace and `@`. */
  ghost predicate EmailShape(email: string) {
    exists x, y, z :: EmailWord(x) && EmailWord(y) && EmailWord(z) && email == x + "@" + y + "." + z
  }

  /** `validateEmail` accepts exactly the strings of the shape `X@Y.Z`. */
  lemma ValidateEmailIffShape(email: string)
    ensures ValidateEmail(email) <==> EmailShape(email)
  {
    if ValidateEmail(email) {
      var x, y, z := AcceptedEmailSplits(email);
    }
    if EmailShape(email) {
      var x, y, z :| EmailWord(x) && EmailWord(y) && EmailWord(z) && email == x + "@" + y + "." + z;
      ShapedEmailAccepted(x, y, z);
    }
  }

  lemma AcceptedEmailSplits(email: string) returns (x: string, y: string, z: string)
    requires ValidateEmail(email)
    ensures EmailWord(x) && EmailWord(y) && EmailWord(z) && email == x + "@" + y + "." + z
  {
    var at := IndexOf(email, '@');
    x := email[..at];
    y, z := DomainSplits(email[at + 1..]);
    assert email == x + [email[at]] + email[at + 1..];
  }

  /** A dotted domain splits at a dot into two words. */
  lemma DomainSplits(d: string) returns (y: string, z: string)
    requires EmailDomain(d)
    ensures EmailWord(y) && EmailWord(z) && d == y + "." + z
  {
    var j :| 0 <= j < |d[1..|d| - 1]| && d[1..|d| - 1][j] == '.';
    assert d[j + 1] == '.';
    y, z := d[..j + 1], d[j + 2..];
    WordSlice(d, 0, j + 1);
    WordSlice(d, j + 2, |d|);
    assert d == y + [d[j + 1]] + z;
  }

  /** A non-empty slice of a word is a word. */
  lemma WordSlice(w: string, lo: nat, hi: nat)
    requires EmailWord(w) && lo < hi <= |w|
    ensures EmailWord(w[lo..hi])
  {
    assert forall k :: 0 <= k < hi - lo ==> w[lo..hi][k] == w[lo + k];
  }

  lemma ShapedEmailAccepted(x: string, y: string, z: string)
    requires EmailWord(x) && EmailWord(y) && EmailWord(z)
    ensures ValidateEmail(x + "@" + y + "." + z)
  {
    var email := x + "@" + y + "." + z;
    var d := y + "." + z;
    var at := IndexOf(email, '@');
    assert email[|x|] == '@';
    assert forall k :: 0 <= k < |x| ==> email[k] == x[k];
    assert at == |x|;
    assert email[..at] == x;
    assert email[at + 1..] == d;
    assert d[1..|d| - 1][|y| - 1] == '.';
  }

  /** An accepted email has exactly one `@`. */
  lemma ValidEmailHasOneAt(email: string)
    requires ValidateEmail(email)
    ensures var at := IndexOf(email, '@');
      at < |email| && forall k | 0 <= k < |email| && k != at :: email[k] != '@'
  {
    var at := IndexOf(email, '@');
    assert EmailDomain(email[at + 1..]);
    NoAtAfter(email, at);
  }

  /** No `@` follows position `at` when the rest of the text is a word. */
  lemma NoAtAfter(email: string, at: nat)
    requires at < |email| && EmailWord(email[at + 1..])
    ensures forall k | at < k < |email| :: email[k] != '@'
  {
    var d := email[at + 1..];
    forall k | at < k < |email|
      ensures email[k] != '@'
    {
      assert email[k] == d[k - at - 1];
      assert EmailChar(d[k - at - 1]);
    }
  }

  // ---------------------------------------------------------------------------
  // The phone pattern `^[\+]?[0-9\-\(\)\s]{10,}$`

  /** `[0-9\-\(\)\s]` */
  predicate PhoneChar(c: char) {
    ('0' <= c <= '9') || c == '-' || c == '(' || c == ')' || IsWhitespace(c)
  }

  /** `[0-9\-\(\)\s]{10,}` */
  predicate PhoneBody(s: string) {
    |s| >= 10 && forall k :: 0 <= k < |s| ==> PhoneChar(s[k])
  }

  /**
   * `validatePhone`: a leading `+` can only be the optional sign, since `+` is
   * not in the character class; the rest must be ten or more allowed characters,
   * so an accepted number is at least ten long and has no `+` after the first place.
   */
  function ValidatePhone(phone: string): (b: bool)
    ensures b ==> |phone| >= 10
    ensures b ==> forall k :: 0 < k < |phone| ==> phone[k] != '+'
  {
    if |phone| > 0 && phone[0] == '+' then PhoneBody(phone[1..]) else PhoneBody(phone)
  }

  /** The regular expression read as a grammar: an optional `+` followed by the body. */
  ghost predicate PhoneShape(phone: string) {
    PhoneBody(phone) || exists body :: PhoneBody(body) && phone == "+" + body
  }

  /** `validatePhone` accepts exactly the strings of the shape `[+]BODY`. */
  lemma ValidatePhoneIffShape(phone: string)
    ensures ValidatePhone(phone) <==> PhoneShape(phone)
  {
    if |phone| > 0 && phone[0] == '+' {
      assert !PhoneChar(phone[0]);
      assert phone == "+" + phone[1..];
      if PhoneShape(phone) && !PhoneBody(phone) {
        var body :| PhoneBody(body) && phone == "+" + body;
        assert phone[1..] == body;
      }
    }
  }

  /** An accepted phone number has at least ten characters besides the sign. */
  lemma ValidPhoneIsLong(phone: string)
    requires ValidatePhone(phone)
    ensures |phone| >= 10
  {
  }

  // ---------------------------------------------------------------------------
  // The form

  datatype RegisterField =
    | FirstName | LastName | Email | Phone | LicensePlate | VehicleMake | VehicleModel | Password | ConfirmPassword

  /** The form state: the text of every field. */
  type RegisterForm = map<RegisterField, string>

  /** The form state always holds all nine fields. */
  predicate Complete(form: RegisterForm) {
    forall f :: f in form
  }

  /** The errors `validateForm` can store, each standing for its message. */
  datatype RegisterError =
    | FirstNameRequired | LastNameRequired | EmailRequired | InvalidEmail | PhoneRequired | InvalidPhone
    | LicensePlateRequired | VehicleMakeRequired | VehicleModelRequired
    | PasswordRequired | PasswordTooShort | ConfirmationRequired | PasswordsDoNotMatch
  {
    function Text(): string {
      match this
      case FirstNameRequired => "First name is required"
      case LastNameRequired => "Last name is required"
      case EmailRequired => "Email is required"
      case InvalidEmail => "Please enter a valid email"
      case PhoneRequired => "Phone number is required"
      case InvalidPhone => "Please enter a valid phone number"
      case LicensePlateRequired => "License plate is required"
      case VehicleMakeRequired => "Vehicle make is required"
      case VehicleModelRequired => "Vehicle model is required"
      case PasswordRequired => "Password is required"
      case PasswordTooShort => "Password must be at least 6 characters"
      case ConfirmationRequired => "Please confirm your password"
      case PasswordsDoNotMatch => "Passwords do not match"
    }
  }

  /** A field whose only rule is to be non-blank carries error `e` exactly when it is blank. */
  predicate FlagsBlank(errors: map<RegisterField, RegisterError>, form: RegisterForm, f: RegisterField, e: RegisterError)
    requires f in form
  {
    (f in errors <==> IsBlank(form[f])) && (f in errors ==> errors[f] == e)
  }

  /** `r` agrees with `errors` on field `f`. */
  predicate Keeps(r: map<RegisterField, RegisterError>, errors: map<RegisterField, RegisterError>, f: RegisterField) {
    (f in r <==> f in errors) && (f in r ==> r[f] == errors[f])
  }

  /** `validateForm`: the error map it stores and whether the form may be submitted. */
  method ValidateForm(form: RegisterForm) returns (errors: map<RegisterField, RegisterError>, valid: bool)
    requires Complete(form)
    ensures FlagsBlank(errors, form, FirstName, FirstNameRequired)
    ensures FlagsBlank(errors, form, LastName, LastNameRequired)
    ensures Email in errors <==> IsBlank(form[Email]) || !ValidateEmail(form[Email])
    ensures Email in errors ==> errors[Email] == if IsBlank(form[Email]) then EmailRequired else InvalidEmail
    ensures Phone in errors <==> IsBlank(form[Phone]) || !ValidatePhone(form[Phone])
    ensures Phone in errors ==> errors[Phone] == if IsBlank(form[Phone]) then PhoneRequired else InvalidPhone
    ensures FlagsBlank(errors, form, LicensePlate, LicensePlateRequired)
    ensures FlagsBlank(errors, form, VehicleMake, VehicleMakeRequired)
    ensures FlagsBlank(errors, form, VehicleModel, VehicleModelRequired)
    ensures Password in errors <==> IsBlank(form[Password]) || |form[Password]| < 6
    ensures Password in errors ==> errors[Password] == if IsBlank(form[Password]) then PasswordRequired else PasswordTooShort
    ensures ConfirmPassword in errors <==> IsBlank(form[ConfirmPassword]) || form[Password] != form[ConfirmPassword]
    ensures ConfirmPassword in errors ==>
      errors[ConfirmPassword] == if IsBlank(form[ConfirmPassword]) then ConfirmationRequired else PasswordsDoNotMatch
    ensures valid <==> errors == map[]
    ensures valid <==> Acceptable(form)
  {
    errors := map[];
    errors := CheckNames(form, errors);
    errors := CheckContact(form, errors);
    errors := CheckVehicle(form, errors);
    errors := CheckPasswords(form, errors);
    valid := |errors.Keys| == 0;
    if ValidateEmail(form[Email]) {
      AcceptedEmailNotBlank(form[Email]);
    }
    EmptyIffNoField(errors);
  }

  /** An error map is empty exactly when none of the nine fields has an entry. */
  lemma EmptyIffNoField(errors: map<RegisterField, RegisterError>)
    ensures |errors.Keys| == 0 <==> errors == map[]
    ensures errors == map[] <==>
      && FirstName !in errors && LastName !in errors && Email !in errors && Phone !in errors
      && LicensePlate !in errors && VehicleMake !in errors && VehicleModel !in errors
      && Password !in errors && ConfirmPassword !in errors
  {
    if errors != map[] {
      assert errors.Keys != {};
      var f :| f in errors.Keys;
      assert f.FirstName? || f.LastName? || f.Email? || f.Phone? || f.LicensePlate?
        || f.VehicleMake? || f.VehicleModel? || f.Password? || f.ConfirmPassword?;
    }
  }

  /**
   * The two name rules of `validateForm`, in their order. Entries of `errors0`
   * for these fields are dropped first; `ValidateForm` passes the empty map, as
   * the source starts from `{}`.
   */
  method CheckNames(form: RegisterForm, errors0: map<RegisterField, RegisterError>) returns (errors: map<RegisterField, RegisterError>)
    requires Complete(form)
    ensures FlagsBlank(errors, form, FirstName, FirstNameRequired)
    ensures FlagsBlank(errors, form, LastName, LastNameRequired)
    ensures Keeps(errors, errors0, Email) && Keeps(errors, errors0, Phone)
    ensures Keeps(errors, errors0, LicensePlate) && Keeps(errors, errors0, VehicleMake) && Keeps(errors, errors0, VehicleModel)
    ensures Keeps(errors, errors0, Password) && Keeps(errors, errors0, ConfirmPassword)
  {
    errors := errors0 - {FirstName, LastName};
    if IsBlank(form[FirstName]) {
      errors := errors[FirstName := FirstNameRequired];
    }
    if IsBlank(form[LastName]) {
      errors := errors[LastName := LastNameRequired];
    }
  }

  /** The email and phone rules of `validateForm`, in their order; entries of `errors0` for these fields are dropped first. */
  method CheckContact(form: RegisterForm, errors0: map<RegisterField, RegisterError>) returns (errors: map<RegisterField, RegisterError>)
    requires Complete(form)
    ensures Email in errors <==> IsBlank(form[Email]) || !ValidateEmail(form[Email])
    ensures Email in errors ==> errors[Email] == if IsBlank(form[Email]) then EmailRequired else InvalidEmail
    ensures Phone in errors <==> IsBlank(form[Phone]) || !ValidatePhone(form[Phone])
    ensures Phone in errors ==> errors[Phone] == if IsBlank(form[Phone]) then PhoneRequired else InvalidPhone
    ensures Keeps(errors, errors0, FirstName) && Keeps(errors, errors0, LastName)
    ensures Keeps(errors, errors0, LicensePlate) && Keeps(errors, errors0, VehicleMake) && Keeps(errors, errors0, VehicleModel)
    ensures Keeps(errors, errors0, Password) && Keeps(errors, errors0, ConfirmPassword)
  {
    errors := errors0 - {Email, Phone};
    if IsBlank(form[Email]) {
      errors := errors[Email := EmailRequired];
    } else if !ValidateEmail(form[Email]) {
      errors := errors[Email := InvalidEmail];
    }
    if IsBlank(form[Phone]) {
      errors := errors[Phone := PhoneRequired];
    } else if !ValidatePhone(form[Phone]) {
      errors := errors[Phone := InvalidPhone];
    }
  }

  /** The vehicle rules of `validateForm`. */
  method CheckVehicle(form: RegisterForm, errors0: map<RegisterField, RegisterError>) returns (errors: map<RegisterField, RegisterError>)
    requires Complete(form)
    ensures FlagsBlank(errors, form, LicensePlate, LicensePlateRequired)
    ensures FlagsBlank(errors, form, VehicleMake, VehicleMakeRequired)
    ensures FlagsBlank(errors, form, VehicleModel, VehicleModelRequired)
    ensures Keeps(errors, errors0, FirstName) && Keeps(errors, errors0, LastName) && Keeps(errors, errors0, Email) && Keeps(errors, errors0, Phone)
    ensures Keeps(errors, errors0, Password) && Keeps(errors, errors0, ConfirmPassword)
  {
    errors := errors0 - {LicensePlate, VehicleMake, VehicleModel};
    if IsBlank(form[LicensePlate]) {
      errors := errors[LicensePlate := LicensePlateRequired];
    }
    if IsBlank(form[VehicleMake]) {
      errors := errors[VehicleMake := VehicleMakeRequired];
    }
    if IsBlank(form[VehicleModel]) {
      errors := errors[VehicleModel := VehicleModelRequired];
    }
  }

  /** The password and confirmation rules of `validateForm`. */
  method CheckPasswords(form: RegisterForm, errors0: map<RegisterField, RegisterError>) returns (errors: map<RegisterField, RegisterError>)
    requires Complete(form)
    ensures Password in errors <==> IsBlank(form[Password]) || |form[Password]| < 6
    ensures Password in errors ==> errors[Password] == if IsBlank(form[Password]) then PasswordRequired else PasswordTooShort
    ensures ConfirmPassword in errors <==> IsBlank(form[ConfirmPassword]) || form[Password] != form[ConfirmPassword]
    ensures ConfirmPassword in errors ==>
      errors[ConfirmPassword] == if IsBlank(form[ConfirmPassword]) then ConfirmationRequired else PasswordsDoNotMatch
    ensures Keeps(errors, errors0, FirstName) && Keeps(errors, errors0, LastName) && Keeps(errors, errors0, Email) && Keeps(errors, errors0, Phone)
    ensures Keeps(errors, errors0, LicensePlate) && Keeps(errors, errors0, VehicleMake) && Keeps(errors, errors0, VehicleModel)
  {
    errors := errors0 - {Password, ConfirmPassword};
    if IsBlank(form[Password]) {
      errors := errors[Password := PasswordRequired];
    } else if |form[Password]| < 6 {
      errors := errors[Password := PasswordTooShort];
    }
    if IsBlank(form[ConfirmPassword]) {
      errors := errors[ConfirmPassword := ConfirmationRequired];
    } else if form[Password] != form[ConfirmPassword] {
      errors := errors[ConfirmPassword := PasswordsDoNotMatch];
    }
  }

  /**
   * What a submitted registration satisfies: every rule of the form at once.
   * The patterns do not make the blank checks redundant: ten spaces match the
   * phone pattern and six spaces are long enough for a password.
   */
  predicate Acceptable(form: RegisterForm)
    requires Complete(form)
  {
    && !IsBlank(form[FirstName]) && !IsBlank(form[LastName])
    && !IsBlank(form[LicensePlate]) && !IsBlank(form[VehicleMake]) && !IsBlank(form[VehicleModel])
    && ValidateEmail(form[Email])
    && !IsBlank(form[Phone]) && ValidatePhone(form[Phone])
    && !IsBlank(form[Password]) && |form[Password]| >= 6
    && form[ConfirmPassword] == form[Password]
  }

  /** An accepted email is never blank: its `@` is not whitespace. */
  lemma AcceptedEmailNotBlank(email: string)
    requires ValidateEmail(email)
    ensures !IsBlank(email)
  {
    var at := IndexOf(email, '@');
    assert !IsWhitespace(email[at]);
  }

  /** Ten spaces match the phone pattern although the phone field is blank. */
  lemma BlankPhoneMatchesPattern()
    ensures ValidatePhone("          ") && IsBlank("          ")
  {
    var p := "          ";
    assert forall i :: 0 <= i < |p| ==> p[i] == ' ';
  }

  /**
   * `updateFormData(field, value)`: the new form has `value` in `field` and
   * every other field unchanged; an error on `field` is cleared (set to null,
   * which the map represents by dropping the key) and no other error is
   * touched.
   */
  function UpdateFormData(form: RegisterForm, errors: map<RegisterField, RegisterError>, field: RegisterField, value: string)
    : (r: (RegisterForm, map<RegisterField, RegisterError>))
    ensures r.0.Keys == form.Keys + {field} && r.0[field] == value
    ensures forall f :: f in form && f != field ==> r.0[f] == form[f]
    ensures field !in r.1
    ensures forall f :: f != field ==> (f in r.1 <==> f in errors) && (f in errors ==> r.1[f] == errors[f])
  {
    var newErrors := if field in errors then errors - {field} else errors;
    (form[field := value], newErrors)
  }
}
