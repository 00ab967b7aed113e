/**
 * The contact form's field rules: the e-mail shape check and the three
 * independent per-field rules whose conjunction decides whether the form may
 * be sent.
 */
module Validation {
  import opened Strings

  datatype Option<+T> = None | Some(value: T)

  /** The three inputs of the form. */
  datatype Field = Name | Email | Message

  /** The values of the three inputs at the moment they are read. */
  datatype Entries = Entries(name: string, email: string, message: string) {
    function Get(f: Field): string {
      match f
      case Name => name
      case Email => email
      case Message => message
    }
  }

  /** The reasons a field can be rejected for. */
  datatype FieldError = NameRequired | EmailRequired | EmailInvalid | MessageTooLong

  /** The text written into a field's error node. */
  function ErrorMessage(e: FieldError): (m: string)
    ensures m != ""
  {
    match e
    case NameRequired => "Name is required"
    case EmailRequired => "Email is required"
    case EmailInvalid => "Please enter a valid email"
    case MessageTooLong => "Message too long"
  }

  /** The longest message accepted, in characters. */
  const MaxMessageLength := 2000

  /** A run of characters matched by `[^\s@]`: neither white space nor '@'. */
  predicate PlainRun(t: string) {
    forall k :: 0 <= k < |t| ==> !IsWs(t[k]) && t[k] != '@'
  }

  /** The pattern `^[^\s@]+@[^\s@]+\.[^\s@]+$` matches `s` with its '@' at
      index i and its '.' at index j: the three runs around them are non-empty
      and hold neither white space nor '@'. */
  predicate SplitsAt(s: string, i: int, j: int) {
    0 < i && i + 1 < j < |s| - 1 && s[i] == '@' && s[j] == '.' &&
    PlainRun(s[..i]) && PlainRun(s[i + 1..j]) && PlainRun(s[j + 1..])
  }

  /** `isValidEmail`: the pattern matches somewhere. */
  predicate IsValidEmail(s: string) {
    exists i, j | 0 < i < j < |s| :: SplitsAt(s, i, j)
  }

  /** The same shape without the pattern: no white space, a single '@' that is
      not the first character, and after it, with at least one character in
      between, a '.' that is not the last character. */
  predicate EmailShape(s: string) {
    (forall k :: 0 <= k < |s| ==> !IsWs(s[k])) &&
    exists i :: 0 < i < |s| && s[i] == '@' &&
      (forall k :: 0 <= k < |s| && s[k] == '@' ==> k == i) &&
      exists j :: i + 1 < j < |s| - 1 && s[j] == '.'
  }

  /** A match of the pattern has the shape. */
  lemma MatchHasShape(s: string, i: int, j: int)
    requires SplitsAt(s, i, j)
    ensures EmailShape(s)
  {
    forall k | 0 <= k < |s|
      ensures !IsWs(s[k]) && (s[k] == '@' ==> k == i)
    {
      if k < i {
        assert s[..i][k] == s[k];
      } else if i < k < j {
        assert s[i + 1..j][k - i - 1] == s[k];
      } else if j < k {
        assert s[j + 1..][k - j - 1] == s[k];
      }
    }
  }

  /** A string of that shape matches the pattern. */
  lemma ShapeMatches(s: string, i: int, j: int)
    requires forall k :: 0 <= k < |s| ==> !IsWs(s[k])
    requires 0 < i < |s| && s[i] == '@' && (forall k :: 0 <= k < |s| && s[k] == '@' ==> k == i)
    requires i + 1 < j < |s| - 1 && s[j] == '.'
    ensures SplitsAt(s, i, j) && IsValidEmail(s)
  {
    assert PlainRun(s[..i]) by {
      forall k | 0 <= k < i ensures !IsWs(s[..i][k]) && s[..i][k] != '@' {
        assert s[..i][k] == s[k];
      }
    }
    var domain, tld := s[i + 1..j], s[j + 1..];
    assert PlainRun(domain) by {
      forall k | 0 <= k < |domain| ensures !IsWs(domain[k]) && domain[k] != '@' {
        assert domain[k] == s[i + 1 + k];
      }
    }
    assert PlainRun(tld) by {
      forall k | 0 <= k < |tld| ensures !IsWs(tld[k]) && tld[k] != '@' {
        assert tld[k] == s[j + 1 + k];
      }
    }
    assert SplitsAt(s, i, j);
  }

  /** The pattern accepts exactly the strings of that shape. In particular the
      part between '@' and the last '.' may itself hold dots. */
  lemma IsValidEmailIffShape(s: string)
    ensures IsValidEmail(s) <==> EmailShape(s)
  {
    if IsValidEmail(s) {
      var i, j :| 0 < i < j < |s| && SplitsAt(s, i, j);
      MatchHasShape(s, i, j);
    }
    if EmailShape(s) {
      var i :| 0 < i < |s| && s[i] == '@' &&
        (forall k :: 0 <= k < |s| && s[k] == '@' ==> k == i) &&
        exists j :: i + 1 < j < |s| - 1 && s[j] == '.';
      var j :| i + 1 < j < |s| - 1 && s[j] == '.';
      ShapeMatches(s, i, j);
    }
  }

  /** The `name` rule: the name is required. */
  function NameRule(name: string): Option<FieldError> {
    if Trim(name) == [] then Some(NameRequired) else None
  }

  /** The name is rejected, as missing, exactly when it is all white space. */
  lemma NameRuleSpec(name: string)
    ensures NameRule(name) in {None, Some(NameRequired)}
    ensures NameRule(name) == Some(NameRequired) <==> AllWs(name)
  {
  }

  /** The `email` rule: the address is required and, once trimmed, must match
      the pattern. */
  function EmailRule(email: string): Option<FieldError> {
    if Trim(email) == [] then Some(EmailRequired)
    else if !IsValidEmail(Trim(email)) then Some(EmailInvalid)
    else None
  }

  /** The address gets exactly one of three verdicts: missing when it is all
      white space, malformed when its trimmed value lacks the e-mail shape, and
      accepted otherwise; white space around it is therefore tolerated. */
  lemma EmailRuleSpec(email: string)
    ensures EmailRule(email) == Some(EmailRequired) <==> AllWs(email)
    ensures EmailRule(email) == Some(EmailInvalid) <==> !AllWs(email) && !EmailShape(Trim(email))
    ensures EmailRule(email) == None <==> EmailShape(Trim(email))
  {
    IsValidEmailIffShape(Trim(email));
  }

  /** The `message` rule: the message is optional but limited in length. */
  function MessageRule(message: string): Option<FieldError> {
    if message != [] && |message| > MaxMessageLength then Some(MessageTooLong) else None
  }

  /** The message is rejected exactly when its untrimmed length exceeds the
      limit; in particular the empty message is accepted. */
  lemma MessageRuleSpec(message: string)
    ensures MessageRule(message) in {None, Some(MessageTooLong)}
    ensures MessageRule(message) == Some(MessageTooLong) <==> |message| > MaxMessageLength
  {
  }

  /** One verdict per field; `None` means the field is accepted. */
  datatype Verdict = Verdict(name: Option<FieldError>, email: Option<FieldError>, message: Option<FieldError>) {
    function At(f: Field): Option<FieldError> {
      match f
      case Name => name
      case Email => email
      case Message => message
    }

    /** The form may be sent: no field has an error. */
    predicate Accepted() {
      name == None && email == None && message == None
    }
  }

  /** `validateForm` without its effects on the page: every rule is applied,
      each to its own field, with no short cut. */
  function Validate(v: Entries): Verdict {
    Verdict(NameRule(v.name), EmailRule(v.email), MessageRule(v.message))
  }

  /** Each field gets at most one error, of its own kinds, decided by its own
      rule; the form is accepted exactly when the name is not blank, the
      trimmed address has the e-mail shape and the message is within the
      limit. */
  lemma ValidateSpec(v: Entries)
    ensures Validate(v).name in {None, Some(NameRequired)}
    ensures Validate(v).email in {None, Some(EmailRequired), Some(EmailInvalid)}
    ensures Validate(v).message in {None, Some(MessageTooLong)}
    ensures Validate(v).name == Some(NameRequired) <==> AllWs(v.name)
    ensures Validate(v).email == Some(EmailRequired) <==> AllWs(v.email)
    ensures Validate(v).email == Some(EmailInvalid) <==> !AllWs(v.email) && !EmailShape(Trim(v.email))
    ensures Validate(v).message == Some(MessageTooLong) <==> |v.message| > MaxMessageLength
    ensures Validate(v).Accepted() <==>
      !AllWs(v.name) && EmailShape(Trim(v.email)) && |v.message| <= MaxMessageLength
  {
    NameRuleSpec(v.name);
    EmailRuleSpec(v.email);
    MessageRuleSpec(v.message);
  }

  /** The verdict on one field depends on that field's value alone. */
  lemma VerdictIsFieldwise(v: Entries, w: Entries, f: Field)
    requires v.Get(f) == w.Get(f)
    ensures Validate(v).At(f) == Validate(w).At(f)
  {
  }

  /** Surrounding white space never changes the verdict on the e-mail field. */
  lemma EmailRuleIgnoresSurroundingWs(pre: string, email: string, post: string)
    requires AllWs(pre) && AllWs(post)
    ensures EmailRule(pre + email + post) == EmailRule(email)
  {
    TrimIgnoresSurroundingWs(pre, email, post);
  }

  /** Addresses the pattern accepts, among them the one of the documented
      scenario; the part between '@' and the last '.' may hold dots. */
  lemma AcceptedAddresses()
    ensures IsValidEmail("ana@x.com")
    ensures IsValidEmail("a@b.c.d")
    ensures IsValidEmail("a@..c")
  {
    ShapeMatches("ana@x.com", 3, 5);
    ShapeMatches("a@b.c.d", 1, 5);
    ShapeMatches("a@..c", 1, 3);
  }

  /** Addresses the pattern rejects: no '@', two of them, no character between
      '@' and the only '.', white space inside. */
  lemma RejectedAddresses()
    ensures !IsValidEmail("ana.x.com")
    ensures !IsValidEmail("a@b@c.d")
    ensures !IsValidEmail("a@.bc")
    ensures !IsValidEmail("an a@x.com")
  {
    assert !IsValidEmail("ana.x.com") by {
      IsValidEmailIffShape("ana.x.com");
    }
    assert !IsValidEmail("a@b@c.d") by {
      IsValidEmailIffShape("a@b@c.d");
      assert "a@b@c.d"[1] == '@' && "a@b@c.d"[3] == '@';
    }
    assert !IsValidEmail("a@.bc") by {
      IsValidEmailIffShape("a@.bc");
    }
    assert !IsValidEmail("an a@x.com") by {
      IsValidEmailIffShape("an a@x.com");
      assert "an a@x.com"[2] == ' ';
    }
  }

  /** The entries of the documented happy path pass every rule. */
  lemma ScenarioEntriesAccepted()
    ensures Validate(Entries("Ana", "ana@x.com", "")).Accepted()
  {
    assert NameRule("Ana") == None by {
      assert !IsWs("Ana"[0]);
    }
    assert EmailRule("ana@x.com") == None by {
      var address := "ana@x.com";
      assert Trim(address) == address by {
        assert !IsWs(address[0]) && !IsWs(address[|address| - 1]);
        assert [] + address + [] == address;
        TrimOfPadded([], address, []);
      }
      AcceptedAddresses();
    }
  }
}
