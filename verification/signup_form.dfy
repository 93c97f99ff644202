/**
 The signup form's submit handler. The browser runs first: the four fields
 are `required` and the address field has `type="email"`, so a submit with an
 empty field or a malformed address is blocked before the handler runs. The
 handler then clears the error line; the two password fields must match,
 the password must be at least six characters long (JavaScript counts UTF-16
 code units), and only then is signup called with the values the inputs
 hold: the name and password as typed, the address without surrounding
 whitespace.
 */
module SignupForm {
  import opened Base
  import opened Domain
  import AuthApi

  const PasswordMismatch: string := "Passwords do not match"
  const PasswordTooShort: string := "Password must be at least 6 characters"
  const SignupFailed: string := "Failed to sign up"

  /** The shortest accepted password, in UTF-16 code units. */
  const MinPasswordLength: nat := 6

  /** What the four inputs hold (their `value`), not what was typed. */
  datatype Form = Form(name: string, email: string, password: string, confirmPassword: string)

  /**
   What a submit does: the browser blocks it, the handler shows a validation
   error, or the handler calls signup.
   */
  datatype Submitted =
    | Blocked
    | Invalid(error: string)
    | CallSignup(name: string, email: string, password: string)

  /** ASCII whitespace: tab, line feed, form feed, carriage return and space. */
  predicate IsAsciiWhitespace(c: char)
  {
    c == '\t' || c == '\n' || c == '\U{000C}' || c == '\r' || c == ' '
  }

  function DropLeadingAscii(s: string): (r: string)
    ensures |r| <= |s| && r == s[|s| - |r|..]
    ensures |r| > 0 ==> !IsAsciiWhitespace(r[0])
    ensures forall i :: 0 <= i < |s| - |r| ==> IsAsciiWhitespace(s[i])
  {
    if |s| > 0 && IsAsciiWhitespace(s[0]) then DropLeadingAscii(s[1..]) else s
  }

  function DropTrailingAscii(s: string): (r: string)
    ensures |r| <= |s| && r == s[..|r|]
    ensures |r| > 0 ==> !IsAsciiWhitespace(r[|r| - 1])
    ensures forall i :: |r| <= i < |s| ==> IsAsciiWhitespace(s[i])
  {
    if |s| > 0 && IsAsciiWhitespace(s[|s| - 1]) then DropTrailingAscii(s[..|s| - 1]) else s
  }

  /** Line breaks are dropped from the value of a single-line input. */
  function StripBreaks(s: string): (r: string)
    ensures |r| <= |s|
    ensures forall i :: 0 <= i < |r| ==> r[i] != '\n' && r[i] != '\r'
    ensures (forall i :: 0 <= i < |s| ==> s[i] != '\n' && s[i] != '\r') ==> r == s
  {
    if |s| == 0 then ""
    else if s[0] == '\n' || s[0] == '\r' then StripBreaks(s[1..])
    else [s[0]] + StripBreaks(s[1..])
  }

  /**
   The value a `type="email"` input holds for typed text: line breaks are
   removed, then leading and trailing ASCII whitespace. Text that holds no
   ASCII whitespace is kept as it is.
   */
  function SanitizeEmail(typed: string): (r: string)
    ensures forall i :: 0 <= i < |r| ==> r[i] != '\n' && r[i] != '\r'
    ensures |r| > 0 ==> !IsAsciiWhitespace(r[0]) && !IsAsciiWhitespace(r[|r| - 1])
    ensures (forall i :: 0 <= i < |typed| ==> !IsAsciiWhitespace(typed[i])) ==> r == typed
  {
    var lines := StripBreaks(typed);
    var start := DropLeadingAscii(lines);
    var r := DropTrailingAscii(start);
    SanitizeSteps(typed, lines, start, r);
    r
  }

  /** The three steps of sanitising, one fact each. */
  lemma SanitizeSteps(typed: string, lines: string, start: string, r: string)
    requires lines == StripBreaks(typed) && start == DropLeadingAscii(lines) && r == DropTrailingAscii(start)
    ensures forall i :: 0 <= i < |r| ==> r[i] != '\n' && r[i] != '\r'
    ensures |r| > 0 ==> !IsAsciiWhitespace(r[0])
    ensures (forall i :: 0 <= i < |typed| ==> !IsAsciiWhitespace(typed[i])) ==> r == typed
  {
    NoBreaksKept(lines, start, r);
    if |r| > 0 {
      assert r[0] == start[0];
    }
    if forall i :: 0 <= i < |typed| ==> !IsAsciiWhitespace(typed[i]) {
      CleanKept(lines, start, r);
    }
  }

  /** A prefix of a suffix of text without line breaks has none either. */
  lemma NoBreaksKept(lines: string, start: string, r: string)
    requires forall i :: 0 <= i < |lines| ==> lines[i] != '\n' && lines[i] != '\r'
    requires |start| <= |lines| && start == lines[|lines| - |start|..]
    requires |r| <= |start| && r == start[..|r|]
    ensures forall i :: 0 <= i < |r| ==> r[i] != '\n' && r[i] != '\r'
  {
    assert forall i :: 0 <= i < |r| ==> r[i] == lines[|lines| - |start| + i];
  }

  /** Text without ASCII whitespace loses nothing at either end. */
  lemma CleanKept(lines: string, start: string, r: string)
    requires forall i :: 0 <= i < |lines| ==> !IsAsciiWhitespace(lines[i])
    requires start == DropLeadingAscii(lines) && r == DropTrailingAscii(start)
    ensures r == lines
  {
    assert |lines| > 0 ==> !IsAsciiWhitespace(lines[0]);
    assert start == lines;
    assert |start| > 0 ==> !IsAsciiWhitespace(start[|start| - 1]);
  }

  /**
   The values the four inputs hold for typed text: line breaks are dropped
   from every single-line input, and the address is sanitised as well.
   */
  function Typed(name: string, email: string, password: string, confirmPassword: string): Form
  {
    Form(StripBreaks(name), SanitizeEmail(email), StripBreaks(password), StripBreaks(confirmPassword))
  }

  predicate IsAt(c: char) { c == '@' }

  /** The characters allowed before the `@` of a valid e-mail address. */
  predicate IsLocalChar(c: char)
  {
    ('a' <= c <= 'z') || ('A' <= c <= 'Z') || ('0' <= c <= '9') || c in {'!', '#', '$', '%', '&', '\'', '*', '+', '/', '=', '?', '^', '_', '`', '{', '|', '}', '~', '.', '-'}
  }

  predicate IsLetDig(c: char)
  {
    ('a' <= c <= 'z') || ('A' <= c <= 'Z') || ('0' <= c <= '9')
  }

  /**
   Labels of 1 to 63 letters, digits and hyphens, separated by single dots,
   each starting and ending with a letter or digit; stated character by
   character: every dot sits between two letters or digits, and no 64
   consecutive characters are free of a dot.
   */
  predicate IsDomain(s: string)
  {
    |s| > 0 && IsLetDig(s[0]) && IsLetDig(s[|s| - 1])
    && (forall i :: 0 <= i < |s| ==> IsLetDig(s[i]) || s[i] == '-' || s[i] == '.')
    && (forall i :: 0 < i < |s| - 1 && s[i] == '.' ==> IsLetDig(s[i - 1]) && IsLetDig(s[i + 1]))
    && (forall i :: 0 <= i <= |s| - 64 ==> '.' in s[i..][..64])
  }

  /**
   The HTML "valid e-mail address" grammar that `type="email"` checks: a
   non-empty local part of allowed characters, one `@`, and a domain of
   labels separated by dots. A single label without a dot is accepted.
   */
  predicate ValidEmail(s: string)
  {
    match FirstIndex(s, IsAt)
    case None => false
    case Some(k) => k > 0 && (forall i :: 0 <= i < k ==> IsLocalChar(s[i])) && IsDomain(s[k + 1..])
  }

  /** The browser's constraint validation of the form: every field filled in, and a valid address. */
  predicate PassesConstraints(f: Form)
  {
    f.name != "" && f.email != "" && ValidEmail(f.email) && f.password != "" && f.confirmPassword != ""
  }

  /**
   `s.length`: characters outside the Basic Multilingual Plane take two
   UTF-16 code units.
   */
  function Utf16Length(s: string): (n: nat)
    ensures |s| <= n <= 2 * |s|
    ensures (forall i :: 0 <= i < |s| ==> s[i] as int <= 0xFFFF) ==> n == |s|
  {
    if |s| == 0 then 0 else (if s[0] as int > 0xFFFF then 2 else 1) + Utf16Length(s[1..])
  }

  function Submit(f: Form): Submitted
  {
    if !PassesConstraints(f) then Blocked
    else if f.password != f.confirmPassword then Invalid(PasswordMismatch)
    else if Utf16Length(f.password) < MinPasswordLength then Invalid(PasswordTooShort)
    else CallSignup(f.name, f.email, f.password)
  }

  /**
   The error line once a submit has finished. `previous` is what it showed
   before; `thrown` is the message of the exception signup raised, if it
   was called and raised one.
   */
  function ErrorAfterSubmit(previous: string, f: Form, thrown: Option<string>): string
  {
    match Submit(f)
    case Blocked => previous
    case Invalid(e) => e
    case CallSignup(_, _, _) =>
      match thrown
      case None => ""
      case Some(msg) => if msg != "" then msg else SignupFailed
  }

  /** The request body signup sends. */
  function Request(s: Submitted): AuthApi.AuthRequest
    requires s.CallSignup?
  {
    AuthApi.Signup(s.name, s.email, s.password)
  }

  /**
   A valid address has exactly one `@`, with text on both sides of it, and no
   whitespace, so sanitising leaves it unchanged.
   */
  lemma ValidEmailShape(s: string)
    requires ValidEmail(s)
    ensures exists k :: 0 < k < |s| - 1 && s[k] == '@' && forall j :: 0 <= j < |s| && j != k ==> s[j] != '@'
    ensures forall i :: 0 <= i < |s| ==> !IsAsciiWhitespace(s[i])
    ensures SanitizeEmail(s) == s
  {
    var k := FirstIndex(s, IsAt).value;
    var domain := s[k + 1..];
    assert forall i :: k < i < |s| ==> s[i] == domain[i - k - 1];
    assert forall i :: 0 <= i < |s| ==> !IsAsciiWhitespace(s[i]) && (i != k ==> s[i] != '@') by {
      forall i | 0 <= i < |s|
        ensures !IsAsciiWhitespace(s[i]) && (i != k ==> s[i] != '@')
      {
        if i < k {
          assert IsLocalChar(s[i]);
        } else if i > k {
          assert IsLetDig(domain[i - k - 1]) || domain[i - k - 1] == '-' || domain[i - k - 1] == '.';
        }
      }
    }
    assert 0 < k < |s| - 1 && s[k] == '@';
  }

  /** Where the first match of a character class is, stated by its position. */
  lemma FirstMatchAt(s: string, p: char -> bool, k: nat)
    requires k < |s| && p(s[k])
    requires forall j :: 0 <= j < k ==> !p(s[j])
    ensures FirstIndex(s, p) == Some(k)
  {
  }

  /** A dotted domain is accepted. */
  lemma DottedAddressValid()
    ensures ValidEmail("a@b.co")
  {
    var s := "a@b.co";
    FirstMatchAt(s, IsAt, 1);
    assert s[2..] == "b.co";
  }

  /** A domain of a single label, without a dot, is accepted. */
  lemma SingleLabelAddressValid()
    ensures ValidEmail("a@host")
  {
    var s := "a@host";
    FirstMatchAt(s, IsAt, 1);
    assert s[2..] == "host";
  }

  /** Addresses the browser rejects for their `@`: none, nothing before it, nothing after it. */
  lemma AtMisplacedRejected()
    ensures !ValidEmail("a")
    ensures !ValidEmail("@b.co")
    ensures !ValidEmail("a@")
  {
    assert FirstIndex("a", IsAt).None?;
    FirstMatchAt("@b.co", IsAt, 0);
    var e := "a@";
    FirstMatchAt(e, IsAt, 1);
    assert e[2..] == "";
  }

  /** Two dots in a row leave an empty label, which the browser rejects. */
  lemma EmptyLabelRejected()
    ensures !ValidEmail("a@b..co")
  {
    var s := "a@b..co";
    FirstMatchAt(s, IsAt, 1);
    var d := s[2..];
    assert d == "b..co";
    assert d[1] == '.' && d[2] == '.';
  }

  /** A label may not start with a hyphen. */
  lemma LeadingHyphenRejected()
    ensures !ValidEmail("a@-b.co")
  {
    var s := "a@-b.co";
    FirstMatchAt(s, IsAt, 1);
    assert s[2..] == "-b.co";
  }

  /** A space is not allowed before the `@`. */
  lemma SpaceRejected()
    ensures !ValidEmail("a b@c.co")
  {
    var s := "a b@c.co";
    FirstMatchAt(s, IsAt, 3);
    assert !IsLocalChar(s[1]);
  }

  /**
   The browser blocks a submit with an empty field or a malformed address.
   Otherwise signup is called exactly when the passwords match and are long
   enough, with the form's own values; a mismatch is reported even for a
   short password, because it is checked first.
   */
  lemma SubmitCases(f: Form)
    ensures Submit(f) == Blocked <==> !PassesConstraints(f)
    ensures f.name == "" || f.email == "" || f.password == "" || f.confirmPassword == "" ==> Submit(f) == Blocked
    ensures !ValidEmail(f.email) ==> Submit(f) == Blocked
    ensures Submit(f).CallSignup? <==>
      PassesConstraints(f) && f.password == f.confirmPassword && Utf16Length(f.password) >= 6
    ensures Submit(f).CallSignup? ==> Submit(f) == CallSignup(f.name, f.email, f.password)
    ensures PassesConstraints(f) && f.password != f.confirmPassword ==> Submit(f) == Invalid("Passwords do not match")
    ensures PassesConstraints(f) && f.password == f.confirmPassword && Utf16Length(f.password) < 6 ==>
      Submit(f) == Invalid("Password must be at least 6 characters")
  {
  }

  /**
   A blocked submit never reaches the handler, so the error line keeps what
   it showed. Otherwise it never carries over from an earlier submit: it is
   empty exactly when signup was called and did not throw, and otherwise it
   is non-empty.
   */
  lemma ErrorCleared(previous: string, other: string, f: Form, thrown: Option<string>)
    ensures Submit(f).Blocked? ==> ErrorAfterSubmit(previous, f, thrown) == previous
    ensures !Submit(f).Blocked? ==> ErrorAfterSubmit(previous, f, thrown) == ErrorAfterSubmit(other, f, thrown)
    ensures !Submit(f).Blocked? ==>
      (ErrorAfterSubmit(previous, f, thrown) == "" <==> Submit(f).CallSignup? && thrown.None?)
    ensures Submit(f).CallSignup? && thrown.Some? ==>
      ErrorAfterSubmit(previous, f, thrown) == (if thrown.value != "" then thrown.value else "Failed to sign up")
  {
  }

  /** An accepted form always reaches the server with a non-empty password. */
  lemma AcceptedHasPassword(f: Form)
    requires Submit(f).CallSignup?
    ensures Present(Request(Submit(f)).password) && Request(Submit(f)).action == Some("signup")
  {
  }

  /** Three emoji make a six-unit password: three characters pass the length check. */
  lemma ThreeEmojiAccepted(email: string)
    requires ValidEmail(email)
    ensures var p := "\U{1F600}\U{1F600}\U{1F600}";
      |p| == 3 && Submit(Form("Ann", email, p, p)).CallSignup?
  {
    var p := "\U{1F600}\U{1F600}\U{1F600}";
    assert p[1..][1..][1..] == "";
    assert Utf16Length(p) == 2 + Utf16Length(p[1..]);
    assert Utf16Length(p[1..]) == 2 + Utf16Length(p[1..][1..]);
  }

  /**
   The form does not trim the password: one with a trailing space passes
   and is sent as typed, which the server then stores untrimmed and later
   compares trimmed.
   */
  lemma PaddedPasswordSent(email: string)
    requires ValidEmail(email)
    ensures var f := Typed("Ann", email, "secret1 ", "secret1 ");
      Submit(f).CallSignup? && Request(Submit(f)) == AuthApi.Signup("Ann", email, "secret1 ")
  {
    TypedClean("Ann", email, "secret1 ");
  }

  /**
   Typed text without line breaks, a valid address and a password of six or
   more characters reach signup unchanged.
   */
  lemma TypedClean(name: string, email: string, password: string)
    requires forall i :: 0 <= i < |name| ==> name[i] != '\n' && name[i] != '\r'
    requires forall i :: 0 <= i < |password| ==> password[i] != '\n' && password[i] != '\r'
    requires name != "" && ValidEmail(email) && |password| >= MinPasswordLength
    ensures Submit(Typed(name, email, password, password)) == CallSignup(name, email, password)
  {
    ValidEmailShape(email);
    assert Utf16Length(password) >= |password|;
  }

  lemma {:induction false} StripBreaksAppend(a: string, b: string)
    ensures StripBreaks(a + b) == StripBreaks(a) + StripBreaks(b)
    decreases |a|
  {
    if |a| == 0 {
      assert a + b == b;
    } else {
      assert (a + b)[0] == a[0] && (a + b)[1..] == a[1..] + b;
      StripBreaksAppend(a[1..], b);
    }
  }

  /**
   The address, unlike the password, reaches signup without the space and
   line break typed around it.
   */
  lemma PaddedEmailSent(name: string, email: string, password: string)
    requires forall i :: 0 <= i < |name| ==> name[i] != '\n' && name[i] != '\r'
    requires forall i :: 0 <= i < |password| ==> password[i] != '\n' && password[i] != '\r'
    requires name != "" && ValidEmail(email) && |password| >= MinPasswordLength
    ensures SanitizeEmail(" " + email + "\n") == email
    ensures Submit(Typed(name, " " + email + "\n", password, password)) == CallSignup(name, email, password)
  {
    PaddedEmailSanitized(email);
    ValidEmailShape(email);
    var padded := " " + email + "\n";
    assert Typed(name, padded, password, password) == Typed(name, email, password, password);
    TypedClean(name, email, password);
  }

  lemma PaddedEmailSanitized(email: string)
    requires ValidEmail(email)
    ensures SanitizeEmail(" " + email + "\n") == email
  {
    ValidEmailShape(email);
    var lines := StripBreaks(" " + email + "\n");
    PaddingStripped(email);
    var start := DropLeadingAscii(lines);
    LeadingSpaceDropped(email);
    assert start == email;
    assert DropTrailingAscii(email) == email;
  }

  lemma PaddingStripped(email: string)
    requires forall i :: 0 <= i < |email| ==> !IsAsciiWhitespace(email[i])
    ensures StripBreaks(" " + email + "\n") == " " + email
  {
    StripBreaksAppend(" " + email, "\n");
    StripBreaksAppend(" ", email);
    assert StripBreaks(email) == email;
    assert StripBreaks("\n") == "";
    assert StripBreaks(" ") == " ";
  }

  lemma LeadingSpaceDropped(email: string)
    requires |email| > 0 && !IsAsciiWhitespace(email[0])
    ensures DropLeadingAscii(" " + email) == email
  {
    var s := " " + email;
    assert s[0] == ' ' && s[1..] == email;
  }
}
