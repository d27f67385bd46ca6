/**
 * The login / register form (`components/Auth.tsx`): the password rule, the
 * credential schema with its two password messages, the button gate, the field
 * edit handler and the validation gate in front of the login and register
 * requests. The requests themselves are left out; a submit yields the request
 * it would send.
 */
module Auth {
  import opened Wrappers

  datatype Field = Username | Password

  datatype Credential = Credential(username: string, password: string)

  /** The error text under each field; `""` means none. */
  datatype FieldErrors = FieldErrors(username: string, password: string)

  /** The form's state: what was typed, the errors shown, and which view is up. */
  datatype AuthForm = AuthForm(credential: Credential, errors: FieldErrors, isLoginView: bool)

  /** The request a submit sends. */
  datatype Request = Login(credential: Credential) | Register(credential: Credential)

  /** The form after a submit, and the request sent, if any. */
  datatype Submitted = Submitted(form: AuthForm, request: Option<Request>)

  const Initial := AuthForm(Credential("", ""), FieldErrors("", ""), true)

  /** The password-length message of the schema. */
  const TooShort := "パスワードは８文字以上にしてください"

  /** The letter-and-digit message of the schema. */
  const NeedsLetterAndDigit := "パスワードには少なくとも１つ以上の半角英字と半角数字を含めてください"

  const MinPasswordLength := 8

  predicate IsLetter(c: char) {
    'A' <= c <= 'Z' || 'a' <= c <= 'z'
  }

  predicate IsDigit(c: char) {
    '0' <= c <= '9'
  }

  /** The characters the regular-expression `.` does not match. */
  predicate IsLineTerminator(c: char) {
    c == '\n' || c == '\r' || c == '\U{2028}' || c == '\U{2029}'
  }

  /** Positions a < b hold a letter and a digit, in either order, with no line terminator between them. */
  predicate MatchAt(s: string, a: nat, b: nat)
    requires a < b < |s|
  {
    && ((IsLetter(s[a]) && IsDigit(s[b])) || (IsDigit(s[a]) && IsLetter(s[b])))
    && forall k :: a < k < b ==> !IsLineTerminator(s[k])
  }

  /** `/[A-Za-z].*[0-9]|[0-9].*[A-Za-z]/.test(s)`: the pattern matches somewhere in `s`. */
  predicate PasswordPattern(s: string) {
    exists a: nat, b: nat :: a < b < |s| && MatchAt(s, a, b)
  }

  /**
   * `passwordCheck`, as one left-to-right scan: remember whether a letter and
   * a digit occurred since the last line terminator, and succeed as soon as
   * the other kind shows up.
   */
  method PasswordCheck(s: string) returns (ok: bool)
    ensures ok <==> PasswordPattern(s)
  {
    var letter, digit := false, false;
    ghost var start: nat := 0;
    for i := 0 to |s|
      invariant start <= i
      invariant 0 < start ==> IsLineTerminator(s[start - 1])
      invariant forall k :: start <= k < i ==> !IsLineTerminator(s[k])
      invariant letter <==> exists k :: start <= k < i && IsLetter(s[k])
      invariant digit <==> exists k :: start <= k < i && IsDigit(s[k])
      invariant forall a: nat, b: nat :: a < b < i ==> !MatchAt(s, a, b)
    {
      var c := s[i];
      if IsLineTerminator(c) {
        letter, digit := false, false;
        start := i + 1;
      } else if IsLetter(c) {
        if digit {
          ghost var a :| start <= a < i && IsDigit(s[a]);
          assert MatchAt(s, a, i);
          return true;
        }
        NoMatchEndingAt(s, start, i);
        letter := true;
      } else if IsDigit(c) {
        if letter {
          ghost var a :| start <= a < i && IsLetter(s[a]);
          assert MatchAt(s, a, i);
          return true;
        }
        NoMatchEndingAt(s, start, i);
        digit := true;
      }
    }
    return false;
  }

  /**
   * A match ending at `b` starts inside the current line: an earlier start has
   * the line terminator at `start - 1` between it and `b`.
   */
  lemma NoMatchEndingAt(s: string, start: nat, b: nat)
    requires start <= b < |s|
    requires 0 < start ==> IsLineTerminator(s[start - 1])
    ensures forall a: nat :: a < start && a < b ==> !MatchAt(s, a, b) || a == start - 1
  {
    forall a: nat | a < start && a < b && a != start - 1
      ensures !MatchAt(s, a, b)
    {
      assert a < start - 1 < b;
    }
  }

  /** The schema's messages for a password, in the order the checks report them. */
  function PasswordIssues(pw: string): (r: seq<string>)
    ensures |pw| < MinPasswordLength <==> TooShort in r
    ensures !PasswordPattern(pw) <==> NeedsLetterAndDigit in r
    ensures r != [] && |pw| < MinPasswordLength ==> r[0] == TooShort
  {
    (if |pw| < MinPasswordLength then [TooShort] else []) + (if PasswordPattern(pw) then [] else [NeedsLetterAndDigit])
  }

  /** `fieldErrors[name]?.[0] || ""`. */
  function FirstOrEmpty(msgs: seq<string>): (r: string)
    ensures msgs == [] ==> r == ""
    ensures msgs != [] ==> r == msgs[0]
  {
    if msgs == [] then "" else msgs[0]
  }

  /**
   * `credentialSchema.safeParse`: `None` on success, otherwise the first
   * message of each field. Any string is a valid user name.
   */
  function Validate(c: Credential): (r: Option<FieldErrors>)
    ensures r.None? <==> |c.password| >= MinPasswordLength && PasswordPattern(c.password)
    ensures r.Some? ==> r.value.username == ""
    ensures r.Some? && |c.password| < MinPasswordLength ==> r.value.password == TooShort
    ensures r.Some? && |c.password| >= MinPasswordLength ==> r.value.password == NeedsLetterAndDigit
  {
    var issues := PasswordIssues(c.password);
    if issues == [] then None else Some(FieldErrors("", FirstOrEmpty(issues)))
  }

  /** `isDisabled`: the button is off while either field is empty. */
  function IsDisabled(form: AuthForm): (r: bool)
    ensures r <==> form.credential.username == [] || form.credential.password == []
  {
    |form.credential.username| == 0 || |form.credential.password| == 0
  }

  /** `handleInputChange`: the edited field takes the value and its error is cleared. */
  function ChangeField(form: AuthForm, field: Field, value: string): (r: AuthForm)
    ensures field == Username ==> r.credential == form.credential.(username := value) && r.errors == form.errors.(username := "")
    ensures field == Password ==> r.credential == form.credential.(password := value) && r.errors == form.errors.(password := "")
    ensures r.isLoginView == form.isLoginView
  {
    match field
    case Username => form.(credential := form.credential.(username := value), errors := form.errors.(username := ""))
    case Password => form.(credential := form.credential.(password := value), errors := form.errors.(password := ""))
  }

  /** The link under the button switches between the login and the register view. */
  function ToggleView(form: AuthForm): (r: AuthForm)
    ensures r.isLoginView != form.isLoginView
    ensures r.credential == form.credential && r.errors == form.errors
  {
    form.(isLoginView := !form.isLoginView)
  }

  /**
   * The button's handler, `login` or `register` by the view: a credential the
   * schema rejects shows the errors and sends nothing; an accepted one is sent
   * as it is and the form stays as it was.
   */
  function Submit(form: AuthForm): (r: Submitted)
    ensures r.request.None? <==> Validate(form.credential).Some?
    ensures r.request.None? ==> r.form == form.(errors := Validate(form.credential).value)
    ensures r.request.Some? ==> r.form == form
    ensures r.request.Some? ==> r.request.value.credential == form.credential
    ensures r.request.Some? ==> (r.request.value.Login? <==> form.isLoginView)
  {
    match Validate(form.credential)
    case Some(errors) => Submitted(form.(errors := errors), None)
    case None => Submitted(form, Some(if form.isLoginView then Login(form.credential) else Register(form.credential)))
  }

  /** A password shorter than eight characters is never sent, and the length message is the one shown. */
  lemma ShortPasswordBlocked(form: AuthForm)
    requires |form.credential.password| < MinPasswordLength
    ensures Submit(form).request == None
    ensures Submit(form).form.errors == FieldErrors("", TooShort)
  {
  }

  /** A request goes out only for a password of eight or more characters holding a letter and a digit. */
  lemma SentPasswordsAreStrong(form: AuthForm)
    requires Submit(form).request.Some?
    ensures |form.credential.password| >= MinPasswordLength
    ensures exists a: nat, b: nat :: a < b < |form.credential.password| && MatchAt(form.credential.password, a, b)
  {
  }

  /** Eight letters followed by nothing else fail the letter-and-digit rule. */
  lemma LettersOnlyRejected()
    ensures !PasswordPattern("abcdefgh")
    ensures Validate(Credential("user", "abcdefgh")) == Some(FieldErrors("", NeedsLetterAndDigit))
  {
    var s := "abcdefgh";
    assert forall k :: 0 <= k < |s| ==> !IsDigit(s[k]);
  }

  /** A letter and a digit on either side of a line break do not satisfy the rule. */
  lemma LineBreakSeparates()
    ensures !PasswordPattern("abcd\n1234")
  {
    var s := "abcd\n1234";
    forall a: nat, b: nat | a < b < |s|
      ensures !MatchAt(s, a, b)
    {
      if a < 4 && 4 < b {
        assert IsLineTerminator(s[4]);
      }
    }
  }

  /** A letter-then-digit password of eight characters is accepted and sent. */
  lemma StrongPasswordSent(username: string)
    requires username != []
    ensures var form := AuthForm(Credential(username, "abcdefg1"), FieldErrors("", ""), true);
      !IsDisabled(form) && Submit(form).request == Some(Login(Credential(username, "abcdefg1")))
  {
    assert MatchAt("abcdefg1", 6, 7);
  }

  /** After a rejected submit, retyping the password clears its error and keeps the user name's. */
  lemma RetypeClearsOnlyPassword(form: AuthForm, value: string)
    requires Submit(form).request == None
    ensures var r := ChangeField(Submit(form).form, Password, value);
      r.errors.password == "" && r.errors.username == Submit(form).form.errors.username && r.credential.password == value
  {
  }
}
