/** Form and text helpers: localized pick, form reset, error text, e-mail shape, required fields. */
module Helpers {
  import opened Wrappers
  import opened JsText
  import opened JsValue
  import opened Languages
  import Seqs

  /** `getLocalizedText`: the Russian text for Russian, the Kazakh text otherwise. */
  function GetLocalizedText(ruText: string, kzText: string, language: Language := Ru): (r: string)
    ensures language == Ru ==> r == ruText
    ensures language == Kz ==> r == kzText
  {
    if language == Ru then ruText else kzText
  }

  /** With the language left out, the Russian text is chosen. */
  lemma GetLocalizedTextDefaultsToRussian(ruText: string, kzText: string)
    ensures GetLocalizedText(ruText, kzText) == ruText
  {
  }

  /** `resetFormData`: a shallow copy, with the same fields holding the same values. */
  function ResetFormData(initialData: Record): (r: Record)
    ensures r.Keys == initialData.Keys
    ensures forall k :: k in r ==> r[k] == initialData[k]
  {
    map k | k in initialData :: initialData[k]
  }

  const UnknownErrorMessage := "Произошла неизвестная ошибка"

  /** `handleApiError`: an `Error`'s own message, or a fixed fallback for anything else thrown. */
  function HandleApiError(error: Thrown): (msg: string)
    ensures error.ErrorObject? ==> msg == error.message
    ensures error.NonError? ==> msg == UnknownErrorMessage
  {
    match error
    case ErrorObject(message) => message
    case NonError(_) => UnknownErrorMessage
  }

  /* ------------------------------------------------------------ e-mail shape */

  /** A character class `[^\s@]` run: no white space and no `@`. */
  predicate PlainRun(s: string) {
    forall i :: 0 <= i < |s| ==> !IsSpace(s[i]) && s[i] != '@'
  }

  /**
   * The e-mail splits as local `@` host `.` top-level at positions `at` and `dot`, with all
   * three parts non-empty plain runs: one way the pattern `^[^\s@]+@[^\s@]+\.[^\s@]+$` can match.
   */
  predicate EmailSplit(email: string, at: int, dot: int) {
    && 0 < at && at + 1 < dot && dot + 1 < |email|
    && email[at] == '@' && email[dot] == '.'
    && PlainRun(email[..at]) && PlainRun(email[at + 1..dot]) && PlainRun(email[dot + 1..])
  }

  /** The regular expression of `isValidEmail` matches. */
  ghost predicate MatchesEmailPattern(email: string) {
    exists at, dot :: EmailSplit(email, at, dot)
  }

  /** Index of the first occurrence of `c`. */
  function IndexOf(s: string, c: char): (r: Option<nat>)
    ensures r.Some? ==> r.value < |s| && s[r.value] == c && c !in s[..r.value]
    ensures r.None? ==> c !in s
  {
    if s == [] then None
    else if s[0] == c then Some(0)
    else match IndexOf(s[1..], c)
      case None => None
      case Some(i) => assert s[..i + 1] == [s[0]] + s[1..][..i]; Some(i + 1)
  }

  lemma {:induction false} IndexOfFirst(s: string, c: char, k: nat)
    requires k < |s| && s[k] == c && c !in s[..k]
    ensures IndexOf(s, c) == Some(k)
  {
    if k > 0 {
      assert s[0] in s[..k];
      assert s[1..][..k - 1] == s[1..k] && s[1..k] <= s[..k][1..];
      IndexOfFirst(s[1..], c, k - 1);
    }
  }

  /**
   * `isValidEmail`: no white space, exactly one `@` with text before it, and a dot in the
   * domain with text on both sides; the regular expression is checked by `ScanEmail`.
   */
  function IsValidEmail(email: string): (valid: bool)
    ensures valid <==> MatchesEmailPattern(email)
  {
    ScanMatchesPattern(email);
    ScanEmail(email)
  }

  /** The regular expression as a left-to-right scan: the first `@`, then the domain. */
  predicate ScanEmail(email: string) {
    && (forall i :: 0 <= i < |email| ==> !IsSpace(email[i]))
    && match IndexOf(email, '@')
       case None => false
       case Some(at) =>
         && at > 0
         && '@' !in email[at + 1..]
         && at + 2 < |email| - 1
         && '.' in email[at + 2..|email| - 1]
  }

  /** The scanning check accepts exactly the strings the regular expression matches. */
  lemma ScanMatchesPattern(email: string)
    ensures ScanEmail(email) <==> MatchesEmailPattern(email)
  {
    if ScanEmail(email) {
      ScanFindsSplit(email);
    }
    if MatchesEmailPattern(email) {
      var at, dot :| EmailSplit(email, at, dot);
      SplitPassesScan(email, at, dot);
    }
  }

  /** An accepted scan shows a split: the first `@` and the first `.` after the domain's first character. */
  lemma ScanFindsSplit(email: string)
    requires ScanEmail(email)
    ensures MatchesEmailPattern(email)
  {
    var at := IndexOf(email, '@').value;
    var inner := email[at + 2..|email| - 1];
    var j := IndexOf(inner, '.').value;
    var dot := at + 2 + j;
    assert email[dot] == '.';
    forall i | 0 <= i < |email| && i != at ensures email[i] != '@' {
      if i < at {
        assert email[..at][i] == email[i];
      } else {
        assert email[at + 1..][i - at - 1] == email[i];
      }
    }
    assert EmailSplit(email, at, dot);
  }

  /** A split passes the scan: its `@` is the only one, and its `.` lies inside the domain. */
  lemma SplitPassesScan(email: string, at: int, dot: int)
    requires EmailSplit(email, at, dot)
    ensures ScanEmail(email)
  {
    forall i | 0 <= i < |email| ensures !IsSpace(email[i]) {
      if i < at {
        assert email[..at][i] == email[i];
      } else if at < i < dot {
        assert email[at + 1..dot][i - at - 1] == email[i];
      } else if dot < i {
        assert email[dot + 1..][i - dot - 1] == email[i];
      }
    }
    assert '@' !in email[..at] by {
      forall i | 0 <= i < at ensures email[..at][i] != '@' { }
    }
    IndexOfFirst(email, '@', at);
    assert '@' !in email[at + 1..] by {
      forall i | at + 1 <= i < |email| ensures email[i] != '@' {
        if i < dot {
          assert email[at + 1..dot][i - at - 1] == email[i];
        } else if dot < i {
          assert email[dot + 1..][i - dot - 1] == email[i];
        }
      }
    }
    assert email[at + 2..|email| - 1][dot - at - 2] == '.';
  }

  /* ------------------------------------------------------------ required fields */

  /** A form field as `Object.entries` yields it. */
  type Field = (string, Value)

  /** Falsy values, and strings that are only white space, count as missing. */
  predicate IsMissing(v: Value) {
    !Truthy(v) || (v.Str? && Trim(v.s) == "")
  }

  function RequiredMessage(key: string): string {
    "Поле " + key + " обязательно для заполнения"
  }

  /** One message per missing field, in entry order. */
  function MissingMessages(fields: seq<Field>): (errors: seq<string>)
    ensures |errors| <= |fields|
  {
    if fields == [] then []
    else
      var last := fields[|fields| - 1];
      MissingMessages(fields[..|fields| - 1]) + if IsMissing(last.1) then [RequiredMessage(last.0)] else []
  }

  function MissingField(): Field -> bool {
    (f: Field) => IsMissing(f.1)
  }

  /** The messages name, in order, exactly the keys of the missing fields. */
  lemma {:induction false} MissingMessagesNameMissingFields(fields: seq<Field>)
    ensures var missing := Seqs.Filter(fields, MissingField());
      MissingMessages(fields) == seq(|missing|, i requires 0 <= i < |missing| => RequiredMessage(missing[i].0))
  {
    if fields != [] {
      var init, last := fields[..|fields| - 1], fields[|fields| - 1];
      assert fields == init + [last];
      MissingMessagesNameMissingFields(init);
      Seqs.FilterSnoc(init, last, MissingField());
    }
  }

  /** Which values count as missing: the falsy ones and blank strings, never an object. */
  lemma MissingClassification(s: string, n: int)
    ensures IsMissing(Undefined) && IsMissing(Null) && IsMissing(Bool(false)) && IsMissing(Num(0))
    ensures !IsMissing(Bool(true)) && !IsMissing(Object)
    ensures n != 0 ==> !IsMissing(Num(n))
    ensures IsMissing(Str(s)) <==> IsBlank(s)
  {
    TrimEmptyIffBlank(s);
  }

  /** `validateRequired`: walks the entries and collects a message for each missing field. */
  method ValidateRequired(fields: seq<Field>) returns (errors: seq<string>)
    ensures errors == MissingMessages(fields)
    ensures fields == [] ==> errors == []
  {
    errors := [];
    var i := 0;
    while i < |fields|
      invariant 0 <= i <= |fields|
      invariant errors == MissingMessages(fields[..i])
    {
      var (key, value) := fields[i];
      assert fields[..i + 1][..i] == fields[..i];
      if !Truthy(value) || (value.Str? && Trim(value.s) == "") {
        errors := errors + [RequiredMessage(key)];
      }
      i := i + 1;
    }
    assert fields[..i] == fields;
  }
}
