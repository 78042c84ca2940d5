/**
  The contact form's submit handler: three independent checks on the
  trimmed field values, each writing its own error text, and a success
  state that resets the form when all three pass.
*/
module Contact {
  import opened Wrappers
  import opened Text

  const NAME_ERROR := "Please enter your full name."
  const EMAIL_ERROR := "Please enter a valid email."
  const MESSAGE_ERROR := "Message must be at least 10 characters."

  /** The character class `[^\s@]`. */
  predicate Plain(c: char) {
    !IsSpace(c) && c != '@'
  }

  predicate AllPlain(s: string) {
    forall k :: 0 <= k < |s| ==> Plain(s[k])
  }

  /** `[^\s@]+`: one or more plain characters. */
  predicate PlainRun(s: string) {
    s != [] && AllPlain(s)
  }

  /**
    The pattern `^[^\s@]+@[^\s@]+\.[^\s@]+$` matched with its `@` at `at`
    and its literal dot at `dot`.
  */
  ghost predicate MatchesAt(s: string, at: int, dot: int) {
    0 <= at < dot < |s| && s[at] == '@' && s[dot] == '.' &&
    PlainRun(s[..at]) && PlainRun(s[at + 1..dot]) && PlainRun(s[dot + 1..])
  }

  /** The email pattern, as a regular expression reads it: some way to split `s` matches. */
  ghost predicate EmailPattern(s: string) {
    exists at, dot :: MatchesAt(s, at, dot)
  }

  /** A domain part: plain characters with a dot that is neither first nor last. */
  predicate DomainShape(d: string) {
    AllPlain(d) && |d| >= 3 && '.' in d[1..|d| - 1]
  }

  /**
    The email pattern as a direct test: a non-empty run of plain characters,
    the first `@`, and a domain part after it.
  */
  predicate EmailShape(s: string) {
    match IndexOf(s, '@')
    case None => false
    case Some(at) => at > 0 && AllPlain(s[..at]) && DomainShape(s[at + 1..])
  }

  lemma ShapeImpliesPattern(s: string)
    requires EmailShape(s)
    ensures EmailPattern(s)
  {
    var at := IndexOf(s, '@').value;
    var d := s[at + 1..];
    var inner := d[1..|d| - 1];
    var m :| 0 <= m < |inner| && inner[m] == '.';
    var dot := at + 2 + m;
    assert s[dot] == '.';
    assert s[at + 1..dot] == d[..m + 1];
    assert s[dot + 1..] == d[m + 2..];
    assert PlainRun(s[at + 1..dot]);
    assert PlainRun(s[dot + 1..]);
    assert MatchesAt(s, at, dot);
  }

  lemma PatternImpliesShape(s: string, at: int, dot: int)
    requires MatchesAt(s, at, dot)
    ensures EmailShape(s)
  {
    assert forall k :: 0 <= k < at ==> s[k] == s[..at][k];
    assert IndexOf(s, '@') == Some(at);
    var d := s[at + 1..];
    var mid, tail := s[at + 1..dot], s[dot + 1..];
    assert d == mid + [s[dot]] + tail;
    assert AllPlain(d) by {
      forall k | 0 <= k < |d|
        ensures Plain(d[k])
      {
        if k < |mid| {
          assert d[k] == mid[k];
        } else if k > |mid| {
          assert d[k] == tail[k - |mid| - 1];
        }
      }
    }
    assert d[1..|d| - 1][|mid| - 1] == '.';
  }

  /** The direct test accepts exactly the strings the regular expression matches. */
  lemma EmailShapeIsPattern(s: string)
    ensures EmailShape(s) <==> EmailPattern(s)
  {
    if EmailShape(s) {
      ShapeImpliesPattern(s);
    }
    if EmailPattern(s) {
      var at, dot :| MatchesAt(s, at, dot);
      PatternImpliesShape(s, at, dot);
    }
  }

  /** The example address accepted by the form. */
  lemma SampleAddressMatches()
    ensures EmailPattern("a@b.co")
    ensures EmailShape("a@b.co")
  {
    var s := "a@b.co";
    assert s[..1] == "a" && s[2..3] == "b" && s[4..] == "co";
    assert Plain('a') && Plain('b') && Plain('c') && Plain('o');
    assert MatchesAt(s, 1, 3);
    EmailShapeIsPattern("a@b.co");
  }

  /** The three error slots of the form; the empty string is a cleared slot. */
  datatype Errors = Errors(name: string, email: string, message: string)

  /**
    The validation part of the submit handler: clears the error slots, then
    runs the name, email and message checks in turn, each clearing `ok` and
    filling its own slot when it fails.
  */
  method Validate(name: string, email: string, message: string) returns (ok: bool, errors: Errors)
    ensures errors.name == (if Utf16Length(Trim(name)) >= 2 then "" else NAME_ERROR)
    ensures errors.email == (if EmailPattern(Trim(email)) then "" else EMAIL_ERROR)
    ensures errors.message == (if Utf16Length(Trim(message)) >= 10 then "" else MESSAGE_ERROR)
    ensures ok <==> Utf16Length(Trim(name)) >= 2 && EmailPattern(Trim(email)) && Utf16Length(Trim(message)) >= 10
    ensures ok <==> errors == Errors("", "", "")
  {
    ok := true;
    errors := Errors("", "", "");
    var n := Trim(name);
    if n == [] || Utf16Length(n) < 2 {
      errors := errors.(name := NAME_ERROR);
      ok := false;
    }
    var e := Trim(email);
    EmailShapeIsPattern(e);
    if e == [] || !EmailShape(e) {
      errors := errors.(email := EMAIL_ERROR);
      ok := false;
    }
    var m := Trim(message);
    if m == [] || Utf16Length(m) < 10 {
      errors := errors.(message := MESSAGE_ERROR);
      ok := false;
    }
  }

  /** The contact form's fields, error slots and success notice. */
  class ContactForm {
    var name: string
    var email: string
    var message: string
    var errors: Errors
    var successShown: bool

    constructor (name: string, email: string, message: string)
      ensures this.name == name && this.email == email && this.message == message
      ensures errors == Errors("", "", "") && !successShown
    {
      this.name, this.email, this.message := name, email, message;
      errors := Errors("", "", "");
      successShown := false;
    }

    /**
      Submitting: a failing check leaves its message in its slot and keeps
      what the user typed; when all pass the slots are clear, the success
      notice shows and the fields are reset to empty.
    */
    method Submit() returns (ok: bool)
      modifies this
      ensures ok <==> Utf16Length(Trim(old(name))) >= 2 && EmailPattern(Trim(old(email))) && Utf16Length(Trim(old(message))) >= 10
      ensures errors.name == (if Utf16Length(Trim(old(name))) >= 2 then "" else NAME_ERROR)
      ensures errors.email == (if EmailPattern(Trim(old(email))) then "" else EMAIL_ERROR)
      ensures errors.message == (if Utf16Length(Trim(old(message))) >= 10 then "" else MESSAGE_ERROR)
      ensures ok ==> successShown && name == "" && email == "" && message == ""
      ensures !ok ==> unchanged(this`name, this`email, this`message, this`successShown)
    {
      var checked;
      ok, checked := Validate(name, email, message);
      errors := checked;
      if ok {
        successShown := true;
        name, email, message := "", "", "";
      }
    }
  }

  /** A one-letter name fails the name check. */
  lemma ShortNameRefused()
    ensures Utf16Length(Trim("A")) < 2
  {
    TrimmedIsFixed("A");
  }

  /** `length` counts UTF-16 code units, so one astral character already meets the name rule. */
  lemma AstralNameAccepted()
    ensures Utf16Length(Trim("\U{1F600}")) >= 2
  {
    TrimmedIsFixed("\U{1F600}");
    Utf16LengthAstral("\U{1F600}");
  }

  /** A message of five astral characters meets the message rule. */
  lemma AstralMessageAccepted()
    ensures Utf16Length(Trim("\U{1F600}\U{1F600}\U{1F600}\U{1F600}\U{1F600}")) >= 10
  {
    var m := "\U{1F600}\U{1F600}\U{1F600}\U{1F600}\U{1F600}";
    TrimmedIsFixed(m);
    Utf16LengthAstral(m);
  }
}
