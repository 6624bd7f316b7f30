/**
 * The client-side check of the contact form (`initContactForm`): the three
 * required fields must be non-blank after `trim()`, and the e-mail must match
 * `^[^@\s]+@[^@\s]+\.[^@\s]+$`.
 */
module ContactForm {
  import opened Storage
  import Language

  // ---------------------------------------------------------------------------
  // Whitespace, as ECMAScript defines it for both `\s` and `String.prototype.trim`
  // (WhiteSpace and LineTerminator code points).
  // ---------------------------------------------------------------------------

  predicate IsSpace(c: char) {
    || c == '\t' || c == '\n' || c == '\U{000B}' || c == '\U{000C}' || c == '\r'
    || c == ' ' || c == '\U{00A0}' || c == '\U{1680}'
    || ('\U{2000}' <= c <= '\U{200A}')
    || c == '\U{2028}' || c == '\U{2029}' || c == '\U{202F}' || c == '\U{205F}'
    || c == '\U{3000}' || c == '\U{FEFF}'
  }

  predicate AllSpace(s: string) {
    forall k :: 0 <= k < |s| ==> IsSpace(s[k])
  }

  /** `s.trim()`: leading and trailing whitespace removed. */
  function Trim(s: string): (r: string)
    ensures |r| <= |s|
  {
    TrimEnd(TrimStart(s))
  }

  function TrimStart(s: string): (r: string)
    ensures |r| <= |s|
    ensures r != [] ==> !IsSpace(r[0])
  {
    if s != [] && IsSpace(s[0]) then TrimStart(s[1..]) else s
  }

  function TrimEnd(s: string): (r: string)
    ensures |r| <= |s|
    ensures r != [] ==> !IsSpace(r[|r| - 1])
  {
    if s != [] && IsSpace(s[|s| - 1]) then TrimEnd(s[..|s| - 1]) else s
  }

  /** `!value.trim()`: the trimmed value is the empty (falsy) string. */
  predicate Blank(s: string) {
    Trim(s) == []
  }

  lemma {:induction false} TrimStartEmpty(s: string)
    ensures TrimStart(s) == [] <==> AllSpace(s)
  {
    if s != [] && IsSpace(s[0]) {
      TrimStartEmpty(s[1..]);
      assert AllSpace(s) <==> AllSpace(s[1..]) by {
        if AllSpace(s[1..]) {
          forall k | 0 <= k < |s| ensures IsSpace(s[k]) {
            if k > 0 { assert s[k] == s[1..][k - 1]; }
          }
        }
      }
    }
  }

  lemma {:induction false} TrimEndEmpty(s: string)
    ensures TrimEnd(s) == [] <==> AllSpace(s)
  {
    if s != [] && IsSpace(s[|s| - 1]) {
      var init := s[..|s| - 1];
      TrimEndEmpty(init);
      assert AllSpace(s) <==> AllSpace(init) by {
        if AllSpace(init) {
          forall k | 0 <= k < |s| ensures IsSpace(s[k]) {
            if k < |s| - 1 { assert s[k] == init[k]; }
          }
        }
      }
    }
  }

  lemma {:induction false} TrimStartIsSuffix(s: string)
    ensures var lo := |s| - |TrimStart(s)|;
      TrimStart(s) == s[lo..] && AllSpace(s[..lo])
  {
    if s != [] && IsSpace(s[0]) {
      TrimStartIsSuffix(s[1..]);
      var lo := |s| - |TrimStart(s)|;
      assert s[1..][lo - 1..] == s[lo..];
      assert forall k :: 1 <= k < lo ==> s[k] == s[1..][..lo - 1][k - 1];
    }
  }

  lemma {:induction false} TrimEndIsPrefix(s: string)
    ensures var hi := |TrimEnd(s)|;
      TrimEnd(s) == s[..hi] && AllSpace(s[hi..])
  {
    if s != [] && IsSpace(s[|s| - 1]) {
      var init := s[..|s| - 1];
      TrimEndIsPrefix(init);
      var hi := |TrimEnd(s)|;
      assert init[..hi] == s[..hi];
      assert forall k :: hi <= k < |s| - 1 ==> s[k] == init[hi..][k - hi];
    }
  }

  /**
   * `trim()` keeps a contiguous slice of the value, drops only whitespace on
   * either side of it, and the slice neither starts nor ends with whitespace.
   */
  lemma TrimIsInnerSlice(s: string)
    ensures var lo := |s| - |TrimStart(s)|; var hi := lo + |Trim(s)|;
      && lo <= hi <= |s| && Trim(s) == s[lo..hi]
      && AllSpace(s[..lo]) && AllSpace(s[hi..])
      && (Trim(s) != [] ==> !IsSpace(Trim(s)[0]) && !IsSpace(Trim(s)[|Trim(s)| - 1]))
  {
    var u := TrimStart(s);
    var lo := |s| - |u|;
    TrimStartIsSuffix(s);
    TrimEndIsPrefix(u);
    var hi := lo + |Trim(s)|;
    assert u[|Trim(s)|..] == s[hi..];
    assert u[..|Trim(s)|] == s[lo..hi];
  }

  /** A value is blank exactly when every one of its characters is whitespace. */
  lemma BlankIffAllSpace(s: string)
    ensures Blank(s) <==> AllSpace(s)
  {
    var u := TrimStart(s);
    TrimStartEmpty(s);
    TrimEndEmpty(u);
  }

  // ---------------------------------------------------------------------------
  // The e-mail pattern.
  // ---------------------------------------------------------------------------

  /** A character matched by `[^@\s]`. */
  predicate PartChar(c: char) {
    c != '@' && !IsSpace(c)
  }

  /** A string matched by `[^@\s]+`. */
  predicate Part(s: string) {
    |s| > 0 && forall k :: 0 <= k < |s| ==> PartChar(s[k])
  }

  /**
   * The match `^P+@P+\.P+$` with the `@` at index `at` and the literal dot at
   * index `dot`, where `P+` is `[^@\s]+`.
   */
  predicate MatchesAt(s: string, at: int, dot: int) {
    && 0 <= at < dot < |s|
    && s[at] == '@' && s[dot] == '.'
    && Part(s[..at]) && Part(s[at + 1..dot]) && Part(s[dot + 1..])
  }

  /** `/^[^@\s]+@[^@\s]+\.[^@\s]+$/.test(s)`. */
  predicate EmailOk(s: string) {
    exists at, dot | 0 <= at < dot < |s| :: MatchesAt(s, at, dot)
  }

  /** The shape an accepted address has, stated without the pattern. */
  predicate EmailShape(s: string) {
    && (forall k :: 0 <= k < |s| ==> !IsSpace(s[k]))
    && exists at | 0 < at < |s| :: s[at] == '@' && OnlyAtSign(s, at) && HasInnerDot(s[at + 1..])
  }

  /** `at` is the only position of an `@` in `s`. */
  predicate OnlyAtSign(s: string, at: int) {
    forall k :: 0 <= k < |s| && s[k] == '@' ==> k == at
  }

  /** `d` has a dot with at least one character on each side. */
  predicate HasInnerDot(d: string) {
    exists k | 0 < k < |d| - 1 :: d[k] == '.'
  }

  lemma PartAt(s: string, lo: int, hi: int, k: int)
    requires 0 <= lo <= k < hi <= |s| && Part(s[lo..hi])
    ensures PartChar(s[k])
  {
    assert s[k] == s[lo..hi][k - lo];
  }

  lemma MatchGivesShape(s: string, at: int, dot: int)
    requires MatchesAt(s, at, dot)
    ensures EmailShape(s)
  {
    forall k | 0 <= k < |s|
      ensures !IsSpace(s[k]) && (s[k] == '@' ==> k == at)
    {
      if k < at { PartAt(s, 0, at, k); }
      else if at < k < dot { PartAt(s, at + 1, dot, k); }
      else if dot < k { PartAt(s, dot + 1, |s|, k); }
    }
    var d := s[at + 1..];
    assert d[dot - at - 1] == '.';
  }

  lemma ShapeGivesMatch(s: string, at: int)
    requires 0 < at < |s| && s[at] == '@' && OnlyAtSign(s, at) && HasInnerDot(s[at + 1..])
    requires forall k :: 0 <= k < |s| ==> !IsSpace(s[k])
    ensures EmailOk(s)
  {
    var d := s[at + 1..];
    var k :| 0 < k < |d| - 1 && d[k] == '.';
    var dot := at + 1 + k;
    assert s[dot] == '.';
    forall lo, hi, i | (lo, hi) in {(0, at), (at + 1, dot), (dot + 1, |s|)} && 0 <= i < hi - lo
      ensures PartChar(s[lo..hi][i])
    {
      assert s[lo..hi][i] == s[lo + i];
    }
    assert Part(s[..at]) && Part(s[at + 1..dot]) && Part(s[dot + 1..]) by {
      assert s[..at] == s[0..at];
      assert s[dot + 1..] == s[dot + 1..|s|];
    }
    assert MatchesAt(s, at, dot);
  }

  /**
   * An e-mail passes the pattern exactly when it has no whitespace, exactly one
   * `@` with something before it, and after it a dot with a character on each side.
   */
  lemma EmailOkIffShape(s: string)
    ensures EmailOk(s) <==> EmailShape(s)
  {
    if EmailOk(s) {
      var at, dot :| 0 <= at < dot < |s| && MatchesAt(s, at, dot);
      MatchGivesShape(s, at, dot);
    }
    if EmailShape(s) {
      var at :| 0 < at < |s| && s[at] == '@' && OnlyAtSign(s, at) && HasInnerDot(s[at + 1..]);
      ShapeGivesMatch(s, at);
    }
  }

  /** An e-mail that passes the pattern is never blank. */
  lemma EmailOkNotBlank(s: string)
    requires EmailOk(s)
    ensures !Blank(s)
  {
    var at, dot :| 0 <= at < dot < |s| && MatchesAt(s, at, dot);
    BlankIffAllSpace(s);
    assert !IsSpace(s[at]);
  }

  // ---------------------------------------------------------------------------
  // The submit handler.
  // ---------------------------------------------------------------------------

  /** The form's inputs; `company` is part of the form but is never checked. */
  datatype Form = Form(name: string, email: string, company: string, message: string)

  /** The fields the handler checks: `'name'`, `'email'` and `'message'`. */
  datatype Field = Name | Email | Message

  /** The fields in the order the handler checks them. */
  const CheckedFields: seq<Field> := [Name, Email, Message]

  /** `form.elements[field].value`. */
  function Value(form: Form, field: Field): string {
    match field
    case Name => form.name
    case Email => form.email
    case Message => form.message
  }

  /** The keys of the messages the handler shows, looked up in the chosen dictionary. */
  datatype MessageKey = Required | InvalidEmail | FixFields | Sending

  /** The text of an error element or of the status line. */
  datatype Notice = Cleared | Shown(dict: string, key: MessageKey)

  /** The dictionary the handler uses: that of the stored language, `en` by default. */
  function FormDictionary(items: Items): (d: string)
    ensures d == "ar" <==> Truthy(items, Language.Key) && items[Language.Key] == "ar"
  {
    Language.Dictionary(Language.Current(items))
  }

  /** The error element of one field after the handler has checked it. */
  function FieldNotice(field: Field, value: string, dict: string): Notice {
    if field == Email && value != "" && !EmailOk(value) then Shown(dict, InvalidEmail)
    else if Blank(value) then Shown(dict, Required)
    else Cleared
  }

  /** The form is accepted: name and message non-blank, e-mail matches the pattern. */
  predicate FormValid(form: Form) {
    !Blank(form.name) && !Blank(form.message) && EmailOk(form.email)
  }

  /** What one submission leaves behind. */
  datatype Submission = Submission(errors: seq<Notice>, status: Notice, sending: bool)

  /** The error elements of the checked fields, in order, after a submission. */
  function Notices(form: Form, dict: string): seq<Notice> {
    [FieldNotice(Name, form.name, dict), FieldNotice(Email, form.email, dict), FieldNotice(Message, form.message, dict)]
  }

  /**
   * The submit handler: checks the three fields in turn, clearing `valid` on
   * each failed check, then shows "fix fields" and stops, or shows "sending"
   * and schedules the (simulated) send.
   */
  method Submit(form: Form, items: Items) returns (out: Submission)
    ensures out.errors == Notices(form, FormDictionary(items))
    ensures out.sending <==> FormValid(form)
    ensures out.sending <==> AllCleared(out.errors)
    ensures out.status == Shown(FormDictionary(items), if out.sending then Sending else FixFields)
  {
    var valid := true;
    var errors: seq<Notice> := [];
    var i := 0;
    while i < |CheckedFields|
      invariant 0 <= i <= |CheckedFields|
      invariant errors == Notices(form, FormDictionary(items))[..i]
      invariant valid <==> AllCleared(errors)
    {
      var field := CheckedFields[i];
      var value := Value(form, field);
      var dict := Language.Dictionary(OrDefault(items, Language.Key, "en"));
      var notice: Notice;
      if Blank(value) {
        notice := Shown(dict, Required);
        valid := false;
      } else {
        notice := Cleared;
      }
      if field == Email && value != "" {
        if !EmailOk(value) {
          notice := Shown(dict, InvalidEmail);
          valid := false;
        }
      }
      assert notice == Notices(form, FormDictionary(items))[i];
      AllClearedSnoc(errors, notice);
      errors := errors + [notice];
      i := i + 1;
    }
    var dict := Language.Dictionary(OrDefault(items, Language.Key, "en"));
    ValidIffNoErrors(form, dict);
    if !valid {
      out := Submission(errors, Shown(dict, FixFields), false);
      return;
    }
    out := Submission(errors, Shown(dict, Sending), true);
  }

  /** No error element shows a message. */
  predicate AllCleared(ns: seq<Notice>) {
    forall k :: 0 <= k < |ns| ==> ns[k] == Cleared
  }

  lemma AllClearedSnoc(ns: seq<Notice>, n: Notice)
    ensures AllCleared(ns + [n]) <==> AllCleared(ns) && n == Cleared
  {
    assert (ns + [n])[|ns|] == n;
    assert forall k :: 0 <= k < |ns| ==> (ns + [n])[k] == ns[k];
  }

  /**
   * The form is accepted exactly when no checked field shows an error: a field
   * shows one exactly when one of its checks fails.
   */
  lemma ValidIffNoErrors(form: Form, dict: string)
    ensures FormValid(form) <==> AllCleared(Notices(form, dict))
  {
    var ns := Notices(form, dict);
    if EmailOk(form.email) { EmailOkNotBlank(form.email); }
    assert AllCleared(ns) <==> ns[0] == Cleared && ns[1] == Cleared && ns[2] == Cleared;
  }

  /** The company field never affects the outcome. */
  lemma CompanyIgnored(form: Form, company: string)
    ensures FormValid(form) <==> FormValid(form.(company := company))
    ensures forall i :: 0 <= i < |CheckedFields| ==>
      Value(form, CheckedFields[i]) == Value(form.(company := company), CheckedFields[i])
  {
  }

  /** A whitespace-only e-mail reports "invalid e-mail", not "required"; an empty one "required". */
  lemma BlankEmailNotices(email: string, dict: string)
    requires AllSpace(email)
    ensures email == "" ==> FieldNotice(Email, email, dict) == Shown(dict, Required)
    ensures email != "" ==> FieldNotice(Email, email, dict) == Shown(dict, InvalidEmail)
  {
    BlankIffAllSpace(email);
    if email != "" && EmailOk(email) {
      EmailOkNotBlank(email);
    }
  }
}
