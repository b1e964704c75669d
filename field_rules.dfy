/** The five fields of the footer contact form and the rule js/main.js applies to each. */
module FieldRules {
  import opened JsText
  import opened Options

  datatype Field = FirstName | LastName | Email | Phone | Message

  /** The order in which the submit handler checks the fields. */
  const FieldOrder: seq<Field> := [FirstName, LastName, Email, Phone, Message]

  const FirstNameRequired := "First name is required"
  const LastNameRequired := "Last name is required"
  const EmailRequired := "Email is required"
  const EmailInvalid := "Enter a valid email"
  const PhoneInvalid := "Enter a valid phone number"
  const MessageRequired := "Message is required"

  /** The message shown when a field that must be filled in is left blank; the phone is
      optional and has none. */
  function RequiredMessage(f: Field): string
    requires f != Phone
  {
    if f == FirstName then FirstNameRequired
    else if f == LastName then LastNameRequired
    else if f == Email then EmailRequired
    else MessageRequired
  }

  // ---------------------------------------------------------------- email

  /** `[^\s@]+`: a non-empty run of characters none of which is whitespace or '@'. */
  predicate IsAtom(s: string) {
    |s| > 0 && forall k :: 0 <= k < |s| ==> !IsSpace(s[k]) && s[k] != '@'
  }

  /** The '@' at `i` and the '.' at `j` split the value into atom, '@', atom, '.', atom. */
  predicate EmailShape(s: string, i: int, j: int) {
    0 < i && i + 1 < j < |s| - 1 && s[i] == '@' && s[j] == '.' &&
    IsAtom(s[..i]) && IsAtom(s[i + 1..j]) && IsAtom(s[j + 1..])
  }

  /** The test of `/^[^\s@]+@[^\s@]+\.[^\s@]+$/`, written as the regular expression reads:
      the whole value is an atom, '@', an atom, '.', an atom, for some choice of where
      the '@' and the '.' fall. */
  predicate EmailPattern(s: string) {
    exists i, j :: 0 < i < j < |s| && EmailShape(s, i, j)
  }

  /** No character of the value is whitespace. */
  predicate NoSpace(s: string) {
    forall k :: 0 <= k < |s| ==> !IsSpace(s[k])
  }

  /** The value's only '@' is at `i`, and something comes before it. */
  predicate SoleAt(s: string, i: int) {
    0 < i < |s| && s[i] == '@' && forall k :: 0 <= k < |s| && s[k] == '@' ==> k == i
  }

  /** A '.' at `j`, after the character that follows `i` and before the last character. */
  predicate DotAfter(s: string, i: int, j: int) {
    0 <= i && i + 1 < j < |s| - 1 && s[j] == '.'
  }

  /** The same shape in plain terms: no whitespace anywhere, exactly one '@', something
      before it, and a '.' in the part after it that is neither that part's first nor
      its last character. */
  predicate IsPlainAddress(s: string) {
    NoSpace(s) && exists i, j :: 0 < i < j < |s| && SoleAt(s, i) && DotAfter(s, i, j)
  }

  /** A value of the pattern's shape, with the '@' at `i` and the '.' at `j`, is a plain address. */
  lemma PatternIsPlain(s: string, i: int, j: int)
    requires EmailShape(s, i, j)
    ensures NoSpace(s) && SoleAt(s, i) && DotAfter(s, i, j)
  {
    var local, host, tld := s[..i], s[i + 1..j], s[j + 1..];
    forall k | 0 <= k < |s|
      ensures !IsSpace(s[k]) && (s[k] == '@' ==> k == i)
    {
      if k < i {
        assert s[k] == local[k];
      } else if i < k < j {
        assert s[k] == host[k - i - 1];
      } else if j < k {
        assert s[k] == tld[k - j - 1];
      }
    }
  }

  /** A plain address, with its one '@' at `i` and an inner '.' of the domain at `j`, has
      the pattern's shape. */
  lemma PlainIsPattern(s: string, i: int, j: int)
    requires NoSpace(s) && SoleAt(s, i) && DotAfter(s, i, j)
    ensures EmailShape(s, i, j)
  {
    var local, host, tld := s[..i], s[i + 1..j], s[j + 1..];
    assert IsAtom(local) by {
      forall k | 0 <= k < |local| ensures !IsSpace(local[k]) && local[k] != '@' {
        assert local[k] == s[k];
      }
    }
    assert IsAtom(host) by {
      forall k | 0 <= k < |host| ensures !IsSpace(host[k]) && host[k] != '@' {
        assert host[k] == s[i + 1 + k];
      }
    }
    assert IsAtom(tld) by {
      forall k | 0 <= k < |tld| ensures !IsSpace(tld[k]) && tld[k] != '@' {
        assert tld[k] == s[j + 1 + k];
      }
    }
  }

  /** The regular expression accepts exactly the plain addresses. */
  lemma EmailPatternMeaning(s: string)
    ensures EmailPattern(s) <==> IsPlainAddress(s)
  {
    if EmailPattern(s) {
      var i, j :| 0 < i < j < |s| && EmailShape(s, i, j);
      PatternIsPlain(s, i, j);
    }
    if IsPlainAddress(s) {
      var i, j :| 0 < i < j < |s| && SoleAt(s, i) && DotAfter(s, i, j);
      PlainIsPattern(s, i, j);
    }
  }

  // ---------------------------------------------------------------- phone

  /** One character of `[\d\s\-\+\(\)]`. */
  predicate IsPhoneChar(c: char) {
    IsDigit(c) || IsSpace(c) || c == '-' || c == '+' || c == '(' || c == ')'
  }

  /** The test of `/^[\d\s\-\+\(\)]{8,}$/`. */
  predicate PhonePattern(s: string) {
    |s| >= 8 && forall k :: 0 <= k < |s| ==> IsPhoneChar(s[k])
  }

  // ---------------------------------------------------------------- rules

  /** First name, last name and message: `value.trim() === ''` fails the field, that is,
      exactly an empty or all-whitespace value fails. */
  function RequiredRule(value: string, msg: string): (r: Option<string>)
    ensures r == Some(msg) <==> AllSpace(value)
    ensures r == None <==> !AllSpace(value)
  {
    if Trim(value) == [] then Some(msg) else None
  }

  /** Email: "Email is required" exactly when the value is all whitespace, "Enter a valid
      email" exactly when it is not but is no plain address (the pattern is applied to the
      untrimmed value). */
  function EmailRule(value: string): (r: Option<string>)
    ensures r == Some(EmailRequired) <==> AllSpace(value)
    ensures r == Some(EmailInvalid) <==> !AllSpace(value) && !IsPlainAddress(value)
    ensures r == None <==> !AllSpace(value) && IsPlainAddress(value)
  {
    EmailPatternMeaning(value);
    if Trim(value) == [] then Some(EmailRequired)
    else if !EmailPattern(value) then Some(EmailInvalid)
    else None
  }

  /** Phone: an all-whitespace value passes; any other fails exactly when it is shorter
      than 8 characters or holds a character that is not a digit, whitespace, '-', '+',
      '(' or ')'. */
  function PhoneRule(value: string): (r: Option<string>)
    ensures r != None ==> r == Some(PhoneInvalid)
    ensures r == Some(PhoneInvalid) <==>
      !AllSpace(value) && (|value| < 8 || exists k :: 0 <= k < |value| && !IsPhoneChar(value[k]))
  {
    if Trim(value) != [] && !PhonePattern(value) then Some(PhoneInvalid) else None
  }

  /** The rule the submit handler applies to a field that is present on the page: every
      field but the phone fails with its required message exactly when left blank, and a
      blank phone passes. */
  function Rule(f: Field, value: string): (r: Option<string>)
    ensures f != Phone ==> (r == Some(RequiredMessage(f)) <==> AllSpace(value))
    ensures f == Phone && AllSpace(value) ==> r == None
  {
    match f
    case FirstName => RequiredRule(value, FirstNameRequired)
    case LastName => RequiredRule(value, LastNameRequired)
    case Email => EmailRule(value)
    case Phone => PhoneRule(value)
    case Message => RequiredRule(value, MessageRequired)
  }

  /** A value with leading or trailing whitespace around an otherwise good address gets
      the format error, because the pattern is applied to the untrimmed value. */
  lemma PaddedEmailRejected(value: string, k: nat)
    requires k < |value| && IsSpace(value[k]) && !AllSpace(value)
    ensures EmailRule(value) == Some(EmailInvalid)
  {
  }

  /** Eight hyphens are a valid phone number; "123" is not; "555-123-4567" is. */
  lemma PhoneExamples()
    ensures PhoneRule("--------") == None
    ensures PhoneRule("123") == Some(PhoneInvalid)
    ensures PhoneRule("555-123-4567") == None
  {
    var dashes := "--------";
    assert !IsSpace(dashes[0]);
    assert PhonePattern(dashes) by {
      forall k | 0 <= k < |dashes| ensures IsPhoneChar(dashes[k]) {
        assert dashes[k] == '-';
      }
    }
    var short := "123";
    assert !IsSpace(short[0]);
    var us := "555-123-4567";
    assert !IsSpace(us[0]);
    assert PhonePattern(us) by {
      forall k | 0 <= k < |us| ensures IsPhoneChar(us[k]) {
        assert us[k] == '-' || IsDigit(us[k]);
      }
    }
  }

  /** A well-formed address passes. */
  lemma GoodEmailAccepted()
    ensures EmailRule("jane@example.com") == None
  {
    var good := "jane@example.com";
    assert !IsSpace(good[0]);
    assert good[4] == '@' && good[12] == '.';
    assert IsAtom(good[..4]) && IsAtom(good[5..12]) && IsAtom(good[13..]);
    assert EmailShape(good, 4, 12);
  }

  /** Any value without '@' that is not all whitespace gets the format error, not the
      required error. */
  lemma NoAtEmailRejected(value: string)
    requires !AllSpace(value)
    requires forall k :: 0 <= k < |value| ==> value[k] != '@'
    ensures EmailRule(value) == Some(EmailInvalid)
  {
  }
}
