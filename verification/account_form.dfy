/** The profile editor on the account page: the username and email checks,
    the request it sends, how the server's answer is shown, how editing a
    field clears errors, and how cancelling restores the stored profile.
    The page's two regular expressions are expressed as character
    predicates; for the email pattern the regular-expression reading is kept
    as a separate definition and shown equivalent. */
module AccountForm {
  import opened Base
  import opened Text
  import opened Models

  datatype Profile = Profile(username: string, email: string)

  datatype FormErrors = FormErrors(username: Option<string>, email: Option<string>, general: Option<string>)

  const NoErrors := FormErrors(None, None, None)

  const UsernameRequired := "Username is required"
  const UsernameTooShort := "Username must be at least 3 characters long"
  const UsernameTooLong := "Username must be less than 40 characters"
  const UsernameBadChars := "Username can only contain letters, numbers, and underscores"
  const EmailRequired := "Email is required"
  const EmailInvalid := "Please enter a valid email address"

  /** The class `[a-zA-Z0-9_]`. */
  predicate WordChar(c: char) {
    ('a' <= c <= 'z') || ('A' <= c <= 'Z') || ('0' <= c <= '9') || c == '_'
  }

  predicate AllWordChars(s: string) {
    forall k :: 0 <= k < |s| ==> WordChar(s[k])
  }

  /** The username is checked trimmed; the first failing check wins. */
  function UsernameError(username: string): (e: Option<string>)
    ensures e.None? <==> 3 <= |Trim(username)| <= 40 && AllWordChars(Trim(username))
    ensures e == Some(UsernameRequired) <==> Trim(username) == []
    ensures e == Some(UsernameTooShort) <==> 0 < |Trim(username)| < 3
    ensures e == Some(UsernameTooLong) <==> |Trim(username)| > 40
    ensures e == Some(UsernameBadChars) <==> 3 <= |Trim(username)| <= 40 && !AllWordChars(Trim(username))
  {
    var u := Trim(username);
    if u == [] then Some(UsernameRequired)
    else if |u| < 3 then Some(UsernameTooShort)
    else if |u| > 40 then Some(UsernameTooLong)
    else if !AllWordChars(u) then Some(UsernameBadChars)
    else None
  }

  /** The class `[^\s@]`. */
  predicate Plain(s: string) {
    forall k :: 0 <= k < |s| ==> s[k] != '@' && !IsSpace(s[k])
  }

  predicate NoSpace(s: string) {
    forall k :: 0 <= k < |s| ==> !IsSpace(s[k])
  }

  /** The form's email test, computed: no space anywhere, exactly one `@`
      with something before it, and a `.` strictly inside what follows. */
  predicate EmailShape(email: string) {
    var parts := Split(email, '@');
    && NoSpace(email)
    && |parts| == 2
    && parts[0] != []
    && |parts[1]| >= 3
    && '.' in parts[1][1..|parts[1]| - 1]
  }

  /** The pattern `^[^\s@]+@[^\s@]+\.[^\s@]+$` read as a regular expression:
      the string is three runs of plain characters joined by `@` and `.`. */
  ghost predicate EmailPattern(email: string) {
    exists i, j :: 0 < i && i + 1 < j && j + 1 < |email| && email[i] == '@' && email[j] == '.'
      && Plain(email[..i]) && Plain(email[i + 1..j]) && Plain(email[j + 1..])
  }

  /** The computed test accepts exactly the strings the pattern matches. */
  lemma EmailShapeIsPattern(email: string)
    ensures EmailShape(email) <==> EmailPattern(email)
  {
    if EmailShape(email) {
      ShapeGivesPattern(email);
    }
    if EmailPattern(email) {
      var i, j :| 0 < i && i + 1 < j && j + 1 < |email| && email[i] == '@' && email[j] == '.'
        && Plain(email[..i]) && Plain(email[i + 1..j]) && Plain(email[j + 1..]);
      PatternGivesShape(email, i, j);
    }
  }

  lemma ShapeGivesPattern(email: string)
    requires EmailShape(email)
    ensures EmailPattern(email)
  {
    var parts := Split(email, '@');
    var a, d := parts[0], parts[1];
    JoinSplit(email, '@');
    assert parts[1..] == [d];
    assert email == a + ['@'] + d;
    assert '@' !in a && '@' !in d by {
      assert a in parts && d in parts;
    }
    var mid := d[1..|d| - 1];
    var m :| 0 <= m < |mid| && mid[m] == '.';
    PatternWitness(email, a, d, m);
  }

  /** The split at the one `@` and a dot inside the domain give the
      pattern's three runs. */
  lemma PatternWitness(email: string, a: string, d: string, m: int)
    requires email == a + ['@'] + d && NoSpace(email) && '@' !in a && '@' !in d
    requires a != [] && 0 <= m && m + 2 < |d| && d[m + 1] == '.'
    ensures EmailPattern(email)
  {
    assert Plain(a) by {
      forall k | 0 <= k < |a| ensures a[k] != '@' && !IsSpace(a[k]) {
        assert a[k] == email[k];
      }
    }
    assert Plain(d) by {
      forall k | 0 <= k < |d| ensures d[k] != '@' && !IsSpace(d[k]) {
        assert d[k] == email[|a| + 1 + k];
      }
    }
    PlainSlice(d, 0, m + 1);
    PlainSlice(d, m + 2, |d|);
    var i, j := |a|, |a| + 2 + m;
    assert email[..i] == a;
    assert email[i + 1..j] == d[0..m + 1];
    assert email[j + 1..] == d[m + 2..|d|];
    assert email[i] == '@' && email[j] == '.';
  }

  /** Every run of a plain string is plain. */
  lemma PlainSlice(s: string, lo: int, hi: int)
    requires Plain(s) && 0 <= lo <= hi <= |s|
    ensures Plain(s[lo..hi])
  {
    forall k | 0 <= k < hi - lo ensures s[lo..hi][k] != '@' && !IsSpace(s[lo..hi][k]) {
      assert s[lo..hi][k] == s[lo + k];
    }
  }

  lemma PatternGivesShape(email: string, i: int, j: int)
    requires 0 < i && i + 1 < j && j + 1 < |email| && email[i] == '@' && email[j] == '.'
    requires Plain(email[..i]) && Plain(email[i + 1..j]) && Plain(email[j + 1..])
    ensures EmailShape(email)
  {
    var a, d := email[..i], email[i + 1..];
    assert email == a + ['@'] + d;
    assert d == email[i + 1..j] + ['.'] + email[j + 1..];
    assert '@' !in a by {
      forall k | 0 <= k < |a| ensures a[k] != '@' { }
    }
    assert '@' !in d by {
      forall k | 0 <= k < |d| ensures d[k] != '@' {
        if k < j - i - 1 {
          assert d[k] == email[i + 1..j][k];
        } else if k > j - i - 1 {
          assert d[k] == email[j + 1..][k - (j - i)];
        }
      }
    }
    SplitAtFirstSep(a, d, '@');
    SplitWithoutSep(d, '@');
    var parts := Split(email, '@');
    assert parts == [a, d];
    forall k | 0 <= k < |email| ensures !IsSpace(email[k]) {
      if k < i {
        assert email[k] == email[..i][k];
      } else if i < k < j {
        assert email[k] == email[i + 1..j][k - i - 1];
      } else if k > j {
        assert email[k] == email[j + 1..][k - j - 1];
      }
    }
    assert d[1..|d| - 1][j - i - 2] == d[j - i - 1] == '.';
  }

  /** Empty after trimming is "required"; otherwise the untrimmed value must
      pass the pattern, so surrounding spaces are refused. */
  function EmailError(email: string): (e: Option<string>)
    ensures e.None? <==> Trim(email) != [] && EmailShape(email)
    ensures e == Some(EmailRequired) <==> Trim(email) == []
    ensures e == Some(EmailInvalid) <==> Trim(email) != [] && !EmailShape(email)
  {
    if Trim(email) == [] then Some(EmailRequired)
    else if !EmailShape(email) then Some(EmailInvalid)
    else None
  }

  /** `validateForm`: a fresh set of errors, the general one dropped. */
  function Validate(form: Profile): (errors: FormErrors)
    ensures errors.general.None?
    ensures errors.username == UsernameError(form.username)
    ensures errors.email == EmailError(form.email)
  {
    FormErrors(UsernameError(form.username), EmailError(form.email), None)
  }

  predicate Valid(form: Profile) {
    Validate(form) == NoErrors
  }

  /** The form is valid exactly when the trimmed username is 3 to 40 word
      characters and the email, as typed, matches the pattern. */
  lemma ValidIff(form: Profile)
    ensures Valid(form) <==>
      && 3 <= |Trim(form.username)| <= 40 && AllWordChars(Trim(form.username))
      && EmailPattern(form.email)
  {
    EmailShapeIsPattern(form.email);
    if EmailShape(form.email) {
      assert form.email != [];
      assert !IsSpace(form.email[0]);
      TrimEmptyIffAllSpace(form.email);
    }
  }

  datatype AccountEditor = AccountEditor(stored: Profile, form: Profile, errors: FormErrors, editing: bool)

  datatype Field = UsernameField | EmailField

  /** `handleInputChange`: the field takes the new value; its own error and
      the general error are cleared and the other field's error stays. */
  function Edit(ed: AccountEditor, field: Field, value: string): (r: AccountEditor)
    ensures r.stored == ed.stored && r.editing == ed.editing
    ensures r.errors.general.None?
    ensures field == UsernameField ==>
      r.form == ed.form.(username := value) && r.errors.username.None? && r.errors.email == ed.errors.email
    ensures field == EmailField ==>
      r.form == ed.form.(email := value) && r.errors.email.None? && r.errors.username == ed.errors.username
  {
    match field
    case UsernameField => ed.(form := ed.form.(username := value), errors := ed.errors.(username := None, general := None))
    case EmailField => ed.(form := ed.form.(email := value), errors := ed.errors.(email := None, general := None))
  }

  /** `handleCancel`: back to the stored profile, no errors, not editing. */
  function Cancel(ed: AccountEditor): (r: AccountEditor)
    ensures r.form == r.stored == ed.stored
    ensures r.errors == NoErrors && !r.editing
  {
    AccountEditor(ed.stored, ed.stored, NoErrors, false)
  }

  /** Cancelling discards every edit: the editor is the same whatever was
      typed before. */
  lemma CancelForgetsEdits(ed: AccountEditor, field: Field, value: string)
    ensures Cancel(Edit(ed, field, value)) == Cancel(ed)
  {
  }

  datatype SubmitResult = Rejected(errors: FormErrors) | Sent(payload: Profile)

  /** `handleSubmit` up to the request: only a valid form is sent, with
      both fields trimmed. */
  function Submit(form: Profile): (r: SubmitResult)
    ensures r.Rejected? <==> !Valid(form)
    ensures r.Rejected? ==> r.errors == Validate(form)
    ensures r.Sent? ==> r.payload == Profile(Trim(form.username), Trim(form.email))
  {
    if Valid(form) then Sent(Profile(Trim(form.username), Trim(form.email))) else Rejected(Validate(form))
  }

  /** What is sent would pass the form again unchanged: a valid email holds
      no space, so trimming leaves it as typed. */
  lemma SentPayloadRevalidates(form: Profile)
    requires Valid(form)
    ensures Submit(form).payload.email == form.email
    ensures Valid(Submit(form).payload)
    ensures Submit(Submit(form).payload) == Submit(form)
  {
    var e := form.email;
    assert NoSpace(e) && Trim(e) != [];
    assert e != [];
    TrimNoEdgeSpace(e);
    TrimIdempotent(form.username);
    var p := Profile(Trim(form.username), e);
    assert Submit(form) == Sent(p);
    assert Validate(p) == Validate(form);
  }

  /** The server's answer to a sent profile. */
  datatype ServerResponse = NetworkError | Responded(status: nat, error: Option<string>)

  const UpdateFailed := "Failed to update profile. Please try again."
  const NetworkFailed := "Network error. Please check your connection and try again."

  /** After the request: success leaves edit mode with no errors; otherwise
      edit mode stays and exactly one general error is shown. */
  function AfterResponse(ed: AccountEditor, resp: ServerResponse): (r: AccountEditor)
    ensures r.stored == ed.stored && r.form == ed.form
    ensures resp.Responded? && 200 <= resp.status <= 299 ==> !r.editing && r.errors == NoErrors
    ensures !(resp.Responded? && 200 <= resp.status <= 299) ==>
      r.editing == ed.editing && r.errors.general.Some? && r.errors.(general := None) == NoErrors
    ensures resp.Responded? && !(200 <= resp.status <= 299) && Truthy(resp.error) ==>
      r.errors.general == resp.error
    ensures resp.Responded? && !(200 <= resp.status <= 299) && !Truthy(resp.error) ==>
      r.errors.general == Some(UpdateFailed)
    ensures resp.NetworkError? ==> r.errors.general == Some(NetworkFailed)
  {
    match resp
    case NetworkError => ed.(errors := NoErrors.(general := Some(NetworkFailed)))
    case Responded(status, error) =>
      if 200 <= status <= 299 then ed.(errors := NoErrors, editing := false)
      else ed.(errors := NoErrors.(general := Some(if Truthy(error) then error.value else UpdateFailed)))
  }
}
