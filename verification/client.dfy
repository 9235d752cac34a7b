/**
 * The REST client: one request step that builds the headers, hydrates the bearer token from
 * storage, sends the request and classifies the reply; the resource methods built on it
 * (endpoint paths, the "School ID is required" guard) and the mappers from the collapsed
 * single-language replies to the bilingual records.
 *
 * `fetch` and JSON parsing are not executed: the reply a request receives is a `Response`
 * value passed in by the caller.
 */
module Client {
  import opened Wrappers
  import opened JsText
  import opened Storage
  import opened Auth
  import opened Languages
  import Seqs

  const UnauthorizedMessage := "Unauthorized - please login again"
  const SchoolIdRequired := "School ID is required"
  const JsonContentType := "application/json"

  // ---------------------------------------------------------------- requests and replies

  /** The JSON body `JSON.stringify({ email, password })` sends to `/auth/login`. */
  datatype RequestBody = Credentials(email: string, password: string)

  /** What a resource method passes to the request step (`RequestInit`); `None` method means GET. */
  datatype RequestOptions = RequestOptions(httpMethod: Option<string>, headers: map<string, string>, body: Option<RequestBody>)

  const NoOptions := RequestOptions(None, map[], None)

  /** The request handed to `fetch`. */
  datatype HttpRequest = HttpRequest(url: string, httpMethod: Option<string>, headers: map<string, string>, body: Option<RequestBody>)

  /** The `message` field of an error body: a string, an array of strings, or absent. */
  datatype ErrorMessage = MessageText(text: string) | MessageList(parts: seq<string>) | NoMessage

  /**
   * The outcome of `response.json()`: a value that is read as `T` on success and whose
   * `message` field is read on failure, or a parse error with its message.
   */
  datatype Body<T> = Parsed(data: T, message: ErrorMessage) | Unparseable(syntaxError: string)

  /** What `fetch` delivers: a response, or a rejection with its error message. */
  datatype Response<T> = Received(status: int, statusText: string, body: Body<T>) | NetworkFailure(reason: string)

  /** `response.ok`. */
  predicate IsOk(status: int) {
    200 <= status <= 299
  }

  /** The message an error body yields: `message.join(', ')` for an array, `''` when absent. */
  function ErrorText(m: ErrorMessage): string {
    match m
    case MessageText(s) => s
    case MessageList(parts) => Join(parts, ", ")
    case NoMessage => ""
  }

  /** An array `message` mentions each of its parts in the resulting error. */
  lemma ErrorTextMentionsEveryPart(parts: seq<string>)
    ensures forall i :: 0 <= i < |parts| ==> Contains(ErrorText(MessageList(parts)), parts[i])
  {
    JoinContainsParts(parts, ", ");
  }

  /**
   * How the request step settles, given the reply: the parsed body on a 2xx reply, and
   * otherwise the message of the error it throws.
   */
  function Outcome<T>(reply: Response<T>): (r: Result<T, string>)
    ensures r.Success? <==> reply.Received? && IsOk(reply.status) && reply.body.Parsed?
    ensures r.Success? ==> r.value == reply.body.data
    ensures reply.NetworkFailure? ==> r == Failure(reply.reason)
    ensures reply.Received? && reply.status == 401 ==> r == Failure(UnauthorizedMessage)
    ensures reply.Received? && !IsOk(reply.status) && reply.status != 401 ==>
      r == Failure(if reply.body.Parsed? then ErrorText(reply.body.message) else reply.statusText)
    ensures reply.Received? && IsOk(reply.status) && reply.body.Unparseable? ==> r == Failure(reply.body.syntaxError)
  {
    match reply
    case NetworkFailure(reason) => Failure(reason)
    case Received(status, statusText, body) =>
      if !IsOk(status) then
        if status == 401 then Failure(UnauthorizedMessage)
        else match body
          case Parsed(_, m) => Failure(ErrorText(m))
          case Unparseable(_) => Failure(statusText)
      else match body
        case Parsed(data, _) => Success(data)
        case Unparseable(e) => Failure(e)
  }

  /** Whether the reply makes the request step log out. */
  predicate LogsOut<T>(reply: Response<T>) {
    reply.Received? && reply.status == 401
  }

  /** Applies `f` to a successful result and passes a failure through (`.then`). */
  function MapValue<T, U>(r: Result<T, string>, f: T -> U): Result<U, string> {
    match r
    case Success(v) => Success(f(v))
    case Failure(e) => Failure(e)
  }

  // ---------------------------------------------------------------- headers and the token

  /**
   * Whether the request step adopts the stored token: the store holds no (or an empty) token,
   * the code runs in a browser, and storage holds a non-empty `authToken`.
   */
  predicate Hydrates(storeToken: Option<string>, inBrowser: bool, items: map<string, string>) {
    !TruthyToken(storeToken) && inBrowser && TruthyToken(Lookup(items, AuthTokenKey))
  }

  /** The token the request step ends up with. */
  function TokenUsed(storeToken: Option<string>, inBrowser: bool, items: map<string, string>): (t: Option<string>)
    ensures TruthyToken(storeToken) ==> t == storeToken
    ensures !TruthyToken(storeToken) && inBrowser ==> t == Lookup(items, AuthTokenKey)
    ensures TruthyToken(t) ==> TruthyToken(storeToken) || Hydrates(storeToken, inBrowser, items)
  {
    if !TruthyToken(storeToken) && inBrowser then Lookup(items, AuthTokenKey) else storeToken
  }

  const AuthorizationHeader := "Authorization"
  const ContentTypeHeader := "Content-Type"
  const BearerPrefix := "Bearer "

  /**
   * The headers sent: `Content-Type: application/json` unless the caller sets it, then the
   * caller's headers, then `Authorization: Bearer <token>` when a non-empty token was found.
   */
  function Headers(callerHeaders: map<string, string>, token: Option<string>): (h: map<string, string>)
    ensures TruthyToken(token) ==> AuthorizationHeader in h && h[AuthorizationHeader] == BearerPrefix + token.value
    ensures !TruthyToken(token) ==> (AuthorizationHeader in h <==> AuthorizationHeader in callerHeaders)
    ensures forall k :: k in h && k != AuthorizationHeader ==>
      h[k] == if k in callerHeaders then callerHeaders[k] else JsonContentType
    ensures forall k :: k != AuthorizationHeader ==> (k in h <==> k == ContentTypeHeader || k in callerHeaders)
    ensures forall k :: k in callerHeaders ==> k in h
  {
    var merged := map[ContentTypeHeader := JsonContentType] + callerHeaders;
    if TruthyToken(token) then merged[AuthorizationHeader := BearerPrefix + token.value] else merged
  }

  /** The bearer credential a server reads from the `Authorization` header (section 2.1 of RFC 6750). */
  function BearerCredential(h: map<string, string>): Option<string> {
    if AuthorizationHeader in h && StartsWith(h[AuthorizationHeader], BearerPrefix)
    then Some(h[AuthorizationHeader][|BearerPrefix|..])
    else None
  }

  /**
   * A server reading the headers recovers exactly the token that was found; without one, it
   * sees whatever the caller's own headers carried.
   */
  lemma BearerCredentialOfHeaders(callerHeaders: map<string, string>, token: Option<string>)
    ensures TruthyToken(token) ==> BearerCredential(Headers(callerHeaders, token)) == token
    ensures !TruthyToken(token) ==> BearerCredential(Headers(callerHeaders, token)) == BearerCredential(callerHeaders)
  {
    var h := Headers(callerHeaders, token);
    if TruthyToken(token) {
      assert h[AuthorizationHeader][..|BearerPrefix|] == BearerPrefix;
    } else if AuthorizationHeader in callerHeaders {
      assert h[AuthorizationHeader] == callerHeaders[AuthorizationHeader];
    }
  }

  // ---------------------------------------------------------------- endpoint paths

  /** JavaScript truthiness of an optional numeric id: absent and `0` are falsy. */
  predicate TruthyId(id: Option<int>) {
    id.Some? && id.value != 0
  }

  /** The id a path actually carries: a falsy id is the same as none. */
  function EffectiveId(id: Option<int>): (e: Option<int>)
    ensures e.Some? <==> TruthyId(id)
    ensures e.Some? ==> e == id
  {
    if TruthyId(id) then id else None
  }

  /** `/lang/<tag>` when a language is given, nothing otherwise. */
  function LangSuffix(language: Option<Language>): string {
    match language
    case Some(l) => "/lang/" + Tag(l)
    case None => ""
  }

  /** `/<resource>/school/<id>`, followed by `/lang/<tag>` when a language is given. */
  function ScopedPath(resource: string, schoolId: int, language: Option<Language>): (p: string)
    ensures StartsWith(p, "/" + resource + "/school/")
    ensures NumeralThen(p[|"/" + resource + "/school/"|..], LangSuffix(language))
  {
    var head := "/" + resource + "/school/";
    var p := head + IntToString(schoolId) + LangSuffix(language);
    NumeralThenOf(head, IntToString(schoolId), LangSuffix(language));
    p
  }

  /** `/news/<id>`, followed by `/lang/<tag>` when a language is given. */
  function NewsByIdPath(id: int, language: Option<Language>): (p: string)
    ensures StartsWith(p, "/news/")
    ensures NumeralThen(p[|"/news/"|..], LangSuffix(language))
  {
    NumeralThenOf("/news/", IntToString(id), LangSuffix(language));
    "/news/" + IntToString(id) + LangSuffix(language)
  }

  /** `/<name>/<id>` for a truthy id, nothing otherwise. */
  function Segment(name: string, id: Option<int>): (r: string)
    ensures r == "" <==> !TruthyId(id)
  {
    if TruthyId(id) then "/" + name + "/" + IntToString(id.value) else ""
  }

  /** `/classes`, scoped to a school when the id is truthy. */
  function ClassesPath(schoolId: Option<int>): (p: string)
    ensures StartsWith(p, "/classes")
    ensures p == "/classes" <==> !TruthyId(schoolId)
    ensures TruthyId(schoolId) ==> StartsWith(p, "/classes/school/") && NumeralThen(p[|"/classes/school/"|..], "")
  {
    SegmentAfter("/classes", "school", schoolId, "");
    assert TruthyId(schoolId) ==>
      StartsWith("/classes" + Segment("school", schoolId) + "", "/classes/school/")
      && NumeralThen(("/classes" + Segment("school", schoolId) + "")[|"/classes/school/"|..], "") by {
      if TruthyId(schoolId) {
        SegmentLead("/classes", "school", schoolId, "");
      }
    }
    "/classes" + Segment("school", schoolId) + ""
  }

  /** `/schedule`, then a school segment and a teacher segment, each present iff its id is truthy. */
  function SchedulePath(schoolId: Option<int>, teacherId: Option<int>): (p: string)
    ensures StartsWith(p, "/schedule")
    ensures p == "/schedule" <==> !TruthyId(schoolId) && !TruthyId(teacherId)
    ensures TruthyId(schoolId) ==> StartsWith(p, "/schedule/school/")
    ensures !TruthyId(schoolId) && TruthyId(teacherId) ==>
      StartsWith(p, "/schedule/teacher/") && NumeralThen(p[|"/schedule/teacher/"|..], "")
  {
    var p := "/schedule" + Segment("school", schoolId) + Segment("teacher", teacherId);
    ScheduleLeads(schoolId, teacherId, p);
    assert TruthyId(schoolId) ==> StartsWith(p, "/schedule/school/") by {
      if TruthyId(schoolId) {
        ScheduleSchoolFirst(schoolId, teacherId, p);
      }
    }
    assert !TruthyId(schoolId) && TruthyId(teacherId) ==>
      StartsWith(p, "/schedule/teacher/") && NumeralThen(p[|"/schedule/teacher/"|..], "") by {
      if !TruthyId(schoolId) && TruthyId(teacherId) {
        ScheduleTeacherOnly(schoolId, teacherId, p);
      }
    }
    p
  }

  lemma ScheduleLeads(schoolId: Option<int>, teacherId: Option<int>, p: string)
    requires p == "/schedule" + Segment("school", schoolId) + Segment("teacher", teacherId)
    ensures StartsWith(p, "/schedule")
    ensures p == "/schedule" <==> !TruthyId(schoolId) && !TruthyId(teacherId)
  {
    SegmentAfter("/schedule", "school", schoolId, Segment("teacher", teacherId));
    SegmentAfter("/schedule", "teacher", teacherId, "");
  }

  lemma ScheduleSchoolFirst(schoolId: Option<int>, teacherId: Option<int>, p: string)
    requires p == "/schedule" + Segment("school", schoolId) + Segment("teacher", teacherId)
    requires TruthyId(schoolId)
    ensures StartsWith(p, "/schedule/school/")
  {
    SegmentLead("/schedule", "school", schoolId, Segment("teacher", teacherId));
  }

  lemma ScheduleTeacherOnly(schoolId: Option<int>, teacherId: Option<int>, p: string)
    requires p == "/schedule" + Segment("school", schoolId) + Segment("teacher", teacherId)
    requires !TruthyId(schoolId) && TruthyId(teacherId)
    ensures StartsWith(p, "/schedule/teacher/")
    ensures NumeralThen(p[|"/schedule/teacher/"|..], "")
  {
    assert p == "/schedule" + Segment("teacher", teacherId) + "";
    SegmentLead("/schedule", "teacher", teacherId, "");
  }

  /** `head`, then a segment, then `rest`: the head stays in front and the segment is empty or not. */
  lemma SegmentAfter(head: string, name: string, id: Option<int>, rest: string)
    ensures StartsWith(head + Segment(name, id) + rest, head)
    ensures TruthyId(id) ==> |head + Segment(name, id) + rest| > |head + rest|
    ensures !TruthyId(id) ==> head + Segment(name, id) + rest == head + rest
  {
    var p := head + Segment(name, id) + rest;
    assert p[..|head|] == head;
  }

  /** A present segment shows its name right after `head`, then the numeral. */
  lemma SegmentLead(head: string, name: string, id: Option<int>, rest: string)
    requires TruthyId(id)
    ensures StartsWith(head + Segment(name, id) + rest, head + "/" + name + "/")
    ensures rest == "" ==> NumeralThen((head + Segment(name, id) + rest)[|head + "/" + name + "/"|..], "")
  {
    var x := IntToString(id.value);
    var lead := head + "/" + name + "/";
    assert head + Segment(name, id) + rest == lead + x + rest;
    NumeralThenOf(lead, x, rest);
  }

  /** `s` is a non-empty numeral followed by `suffix`. */
  predicate NumeralThen(s: string, suffix: string) {
    |s| > |suffix| && s[|s| - |suffix|..] == suffix && Numeral(s[..|s| - |suffix|])
  }

  lemma NumeralThenOf(head: string, x: string, suffix: string)
    requires |x| >= 1 && Numeral(x)
    ensures StartsWith(head + x + suffix, head)
    ensures NumeralThen((head + x + suffix)[|head|..], suffix)
  {
    var p := head + x + suffix;
    assert p[..|head|] == head;
    assert p[|head|..] == x + suffix;
    assert (x + suffix)[..|x|] == x;
    assert (x + suffix)[|x|..] == suffix;
  }

  /** A number as printed: digits with an optional sign. */
  predicate Numeral(x: string) {
    forall k :: 0 <= k < |x| ==> IsDigit(x[k]) || x[k] == '-'
  }

  /** Empty, or starting a new path segment. */
  predicate SlashLed(s: string) {
    s == [] || s[0] == '/'
  }

  /** The length of the prefix before the first `/`. */
  function FirstSlash(w: string): (n: nat)
    ensures n <= |w|
  {
    if w == [] || w[0] == '/' then 0 else 1 + FirstSlash(w[1..])
  }

  lemma {:induction false} FirstSlashAfterNumeral(x: string, s: string)
    requires Numeral(x) && SlashLed(s)
    ensures FirstSlash(x + s) == |x|
  {
    if x == [] {
      assert x + s == s;
    } else {
      assert (x + s)[1..] == x[1..] + s;
      FirstSlashAfterNumeral(x[1..], s);
    }
  }

  /** A number followed by a segment boundary splits back into the number and the rest. */
  lemma NumeralSplit(x: string, s: string, y: string, t: string)
    requires Numeral(x) && Numeral(y) && SlashLed(s) && SlashLed(t)
    requires x + s == y + t
    ensures x == y && s == t
  {
    FirstSlashAfterNumeral(x, s);
    FirstSlashAfterNumeral(y, t);
    assert x == (x + s)[..|x|] && y == (y + t)[..|y|];
    assert s == (x + s)[|x|..] && t == (y + t)[|y|..];
  }

  lemma NumeralThenSegment(a: int, s: string, b: int, t: string)
    requires SlashLed(s) && SlashLed(t)
    requires IntToString(a) + s == IntToString(b) + t
    ensures a == b && s == t
  {
    NumeralSplit(IntToString(a), s, IntToString(b), t);
    IntToStringInjective(a, b);
  }

  /** Reads the language back from a suffix. */
  function LanguageOfSuffix(y: string): Option<Language> {
    if y == "" then None else if y == "/lang/" + Tag(Ru) then Some(Ru) else Some(Kz)
  }

  lemma LanguageOfSuffixOfLangSuffix(language: Option<Language>)
    ensures LanguageOfSuffix(LangSuffix(language)) == language
    ensures SlashLed(LangSuffix(language))
  {
    if language == Some(Kz) {
      assert LangSuffix(language)[6] != (("/lang/" + Tag(Ru)))[6];
    }
  }

  lemma DropPrefix(p: string, x: string, y: string)
    requires p + x == p + y
    ensures x == y
  {
    assert x == (p + x)[|p|..];
    assert y == (p + y)[|p|..];
  }

  lemma Reassociate(p: string, x: string, y: string)
    ensures p + x + y == p + (x + y)
  {
  }

  /** A number and a language suffix: both can be read back. */
  lemma NumberThenLanguage(a: int, la: Option<Language>, b: int, lb: Option<Language>)
    requires IntToString(a) + LangSuffix(la) == IntToString(b) + LangSuffix(lb)
    ensures a == b && la == lb
  {
    LanguageOfSuffixOfLangSuffix(la);
    LanguageOfSuffixOfLangSuffix(lb);
    NumeralThenSegment(a, LangSuffix(la), b, LangSuffix(lb));
  }

  /** A fixed prefix, a number and a language suffix: the number and the language can be read back. */
  lemma NumberedPathIff(p: string, a: int, la: Option<Language>, b: int, lb: Option<Language>)
    ensures p + IntToString(a) + LangSuffix(la) == p + IntToString(b) + LangSuffix(lb) <==> a == b && la == lb
  {
    Reassociate(p, IntToString(a), LangSuffix(la));
    Reassociate(p, IntToString(b), LangSuffix(lb));
    if p + IntToString(a) + LangSuffix(la) == p + IntToString(b) + LangSuffix(lb) {
      DropPrefix(p, IntToString(a) + LangSuffix(la), IntToString(b) + LangSuffix(lb));
      NumberThenLanguage(a, la, b, lb);
    }
  }

  /** Scoped list paths name the school and the language unambiguously. */
  lemma ScopedPathIff(resource: string, a: int, la: Option<Language>, b: int, lb: Option<Language>)
    ensures ScopedPath(resource, a, la) == ScopedPath(resource, b, lb) <==> a == b && la == lb
  {
    NumberedPathIff("/" + resource + "/school/", a, la, b, lb);
  }

  /** A single-news path names the news id and the language unambiguously. */
  lemma NewsByIdPathIff(a: int, la: Option<Language>, b: int, lb: Option<Language>)
    ensures NewsByIdPath(a, la) == NewsByIdPath(b, lb) <==> a == b && la == lb
  {
    NumberedPathIff("/news/", a, la, b, lb);
  }

  /** A segment depends on its id only through the effective id. */
  lemma SegmentOfEffective(name: string, id: Option<int>)
    ensures Segment(name, id) == Segment(name, EffectiveId(id))
    ensures |Segment(name, id)| > 0 <==> TruthyId(id)
  {
  }

  /** Two segment-led strings with the same name agree on the id and on what follows. */
  lemma SegmentsAgree(name: string, a: Option<int>, s: string, b: Option<int>, t: string)
    requires SlashLed(s) && SlashLed(t)
    requires TruthyId(a) && TruthyId(b)
    requires Segment(name, a) + s == Segment(name, b) + t
    ensures a == b && s == t
  {
    var p := "/" + name + "/";
    Reassociate(p, IntToString(a.value), s);
    Reassociate(p, IntToString(b.value), t);
    DropPrefix(p, IntToString(a.value) + s, IntToString(b.value) + t);
    NumeralThenSegment(a.value, s, b.value, t);
  }

  /** A class list path is the same exactly when the effective school ids are. */
  lemma ClassesPathIff(a: Option<int>, b: Option<int>)
    ensures ClassesPath(a) == ClassesPath(b) <==> EffectiveId(a) == EffectiveId(b)
  {
    SegmentOfEffective("school", a);
    SegmentOfEffective("school", b);
    if ClassesPath(a) == ClassesPath(b) {
      DropPrefix("/classes", Segment("school", a), Segment("school", b));
      if TruthyId(a) && TruthyId(b) {
        assert Segment("school", a) + "" == Segment("school", b) + "";
        SegmentsAgree("school", a, "", b, "");
      }
    }
  }

  /** Empty, or a segment whose name starts with `t`. */
  predicate TeacherLed(w: string) {
    w == [] || (|w| >= 2 && w[0] == '/' && w[1] == 't')
  }

  lemma TeacherSegmentLed(t: Option<int>)
    ensures TeacherLed(Segment("teacher", t)) && SlashLed(Segment("teacher", t))
  {
  }

  /** Whether a school segment leads is visible in the second character. */
  lemma SchoolSegmentVisible(s: Option<int>, rest: string)
    requires TeacherLed(rest)
    ensures TruthyId(s) <==> |Segment("school", s) + rest| >= 2 && (Segment("school", s) + rest)[1] == 's'
  {
    if !TruthyId(s) {
      assert Segment("school", s) + rest == rest;
    }
  }

  /** Equal school-and-teacher tails have the same effective ids. */
  lemma ScheduleTailsAgree(s1: Option<int>, t1: Option<int>, s2: Option<int>, t2: Option<int>)
    requires Segment("school", s1) + Segment("teacher", t1) == Segment("school", s2) + Segment("teacher", t2)
    ensures EffectiveId(s1) == EffectiveId(s2) && EffectiveId(t1) == EffectiveId(t2)
  {
    var b1, b2 := Segment("teacher", t1), Segment("teacher", t2);
    TeacherSegmentLed(t1);
    TeacherSegmentLed(t2);
    SchoolSegmentVisible(s1, b1);
    SchoolSegmentVisible(s2, b2);
    if TruthyId(s1) && TruthyId(s2) {
      SegmentsAgree("school", s1, b1, s2, b2);
    } else {
      assert Segment("school", s1) + b1 == b1 && Segment("school", s2) + b2 == b2;
    }
    SegmentOfEffective("teacher", t1);
    SegmentOfEffective("teacher", t2);
    if TruthyId(t1) && TruthyId(t2) {
      assert b1 + "" == b2 + "";
      SegmentsAgree("teacher", t1, "", t2, "");
    }
  }

  /**
   * A schedule path is the same exactly when the effective school ids and the effective
   * teacher ids are: the two segments never blur into each other.
   */
  lemma SchedulePathIff(s1: Option<int>, t1: Option<int>, s2: Option<int>, t2: Option<int>)
    ensures SchedulePath(s1, t1) == SchedulePath(s2, t2) <==>
      EffectiveId(s1) == EffectiveId(s2) && EffectiveId(t1) == EffectiveId(t2)
  {
    SegmentOfEffective("school", s1);
    SegmentOfEffective("school", s2);
    SegmentOfEffective("teacher", t1);
    SegmentOfEffective("teacher", t2);
    var w1 := Segment("school", s1) + Segment("teacher", t1);
    var w2 := Segment("school", s2) + Segment("teacher", t2);
    Reassociate("/schedule", Segment("school", s1), Segment("teacher", t1));
    Reassociate("/schedule", Segment("school", s2), Segment("teacher", t2));
    if SchedulePath(s1, t1) == SchedulePath(s2, t2) {
      DropPrefix("/schedule", w1, w2);
      ScheduleTailsAgree(s1, t1, s2, t2);
    }
  }

  // ---------------------------------------------------------------- records and mappers

  /** `item.imageUrl || undefined`: a null or empty URL becomes absent. */
  function OptionalImage(u: Option<string>): (r: Option<string>)
    ensures r.Some? <==> u.Some? && u.value != ""
    ensures r.Some? ==> r == u
  {
    if u.Some? && u.value != "" then u else None
  }

  /** An image URL as the mappers leave it: absent or non-empty. */
  predicate NormalImage(u: Option<string>) {
    u != Some("")
  }

  datatype NewsApiResponse = NewsApiResponse(id: int, schoolId: int, title: string, content: string, imageUrl: Option<string>, createdAt: string)

  datatype News = News(id: int, schoolId: int, titleRu: string, titleKz: string, contentRu: string, contentKz: string, imageUrl: Option<string>, createdAt: string)

  /** A bilingual record whose two languages carry the same text, as every mapped reply does. */
  predicate NewsMonolingual(n: News) {
    n.titleRu == n.titleKz && n.contentRu == n.contentKz
  }

  /** Collapses a bilingual record back to the single-language reply shape (reading the Russian side). */
  function NewsToApi(n: News): NewsApiResponse {
    NewsApiResponse(n.id, n.schoolId, n.titleRu, n.contentRu, n.imageUrl, n.createdAt)
  }

  /** The news mapper: the reply's texts go to both languages; collapsing gives the reply back, up to the image normalisation. */
  function NewsFromApi(a: NewsApiResponse): (n: News)
    ensures NewsMonolingual(n) && NormalImage(n.imageUrl)
    ensures NewsToApi(n) == a.(imageUrl := OptionalImage(a.imageUrl))
  {
    News(a.id, a.schoolId, a.title, a.title, a.content, a.content, OptionalImage(a.imageUrl), a.createdAt)
  }

  /** A monolingual record with a normal image survives collapsing and mapping again. */
  lemma NewsFromApiOfToApi(n: News)
    requires NewsMonolingual(n) && NormalImage(n.imageUrl)
    ensures NewsFromApi(NewsToApi(n)) == n
  {
  }

  function NewsListFromApi(items: seq<NewsApiResponse>): (r: seq<News>)
    ensures |r| == |items|
    ensures forall i :: 0 <= i < |items| ==> r[i] == NewsFromApi(items[i])
  {
    Seqs.Map(items, NewsFromApi)
  }

  /** The list mapper keeps length, order and every field (up to the image normalisation). */
  lemma NewsListRoundTrip(items: seq<NewsApiResponse>)
    requires forall i :: 0 <= i < |items| ==> NormalImage(items[i].imageUrl)
    ensures Seqs.Map(NewsListFromApi(items), NewsToApi) == items
  {
    Seqs.MapThenInverse(items, NewsFromApi, NewsToApi);
  }

  datatype SectionApiResponse = SectionApiResponse(id: int, schoolId: int, name: string, schedule: string, teacher: string, imageUrl: Option<string>)

  datatype Section = Section(id: int, schoolId: int, nameRu: string, nameKz: string, scheduleRu: string, scheduleKz: string, teacher: string, teacherId: Option<int>, imageUrl: Option<string>)

  predicate SectionMonolingual(s: Section) {
    s.nameRu == s.nameKz && s.scheduleRu == s.scheduleKz
  }

  function SectionToApi(s: Section): SectionApiResponse {
    SectionApiResponse(s.id, s.schoolId, s.nameRu, s.scheduleRu, s.teacher, s.imageUrl)
  }

  /** The section mapper; `teacherId` is never set. */
  function SectionFromApi(a: SectionApiResponse): (s: Section)
    ensures SectionMonolingual(s) && NormalImage(s.imageUrl) && s.teacherId == None
    ensures SectionToApi(s) == a.(imageUrl := OptionalImage(a.imageUrl))
  {
    Section(a.id, a.schoolId, a.name, a.name, a.schedule, a.schedule, a.teacher, None, OptionalImage(a.imageUrl))
  }

  lemma SectionFromApiOfToApi(s: Section)
    requires SectionMonolingual(s) && NormalImage(s.imageUrl) && s.teacherId == None
    ensures SectionFromApi(SectionToApi(s)) == s
  {
  }

  function SectionListFromApi(items: seq<SectionApiResponse>): (r: seq<Section>)
    ensures |r| == |items|
    ensures forall i :: 0 <= i < |items| ==> r[i] == SectionFromApi(items[i])
  {
    Seqs.Map(items, SectionFromApi)
  }

  lemma SectionListRoundTrip(items: seq<SectionApiResponse>)
    requires forall i :: 0 <= i < |items| ==> NormalImage(items[i].imageUrl)
    ensures Seqs.Map(SectionListFromApi(items), SectionToApi) == items
  {
    Seqs.MapThenInverse(items, SectionFromApi, SectionToApi);
  }

  datatype Dishes = Dishes(breakfast: string, lunch: string, dinner: string)

  datatype CanteenMenuApiResponse = CanteenMenuApiResponse(id: int, schoolId: int, date: string, dishes: Dishes, imageUrl: Option<string>)

  datatype CanteenMenu = CanteenMenu(id: int, schoolId: int, date: string, dishesRu: Dishes, dishesKz: Dishes, imageUrl: Option<string>)

  predicate MenuMonolingual(m: CanteenMenu) {
    m.dishesRu == m.dishesKz
  }

  function MenuToApi(m: CanteenMenu): CanteenMenuApiResponse {
    CanteenMenuApiResponse(m.id, m.schoolId, m.date, m.dishesRu, m.imageUrl)
  }

  /** The canteen-menu mapper: the one dishes object serves both languages. */
  function MenuFromApi(a: CanteenMenuApiResponse): (m: CanteenMenu)
    ensures MenuMonolingual(m) && NormalImage(m.imageUrl)
    ensures MenuToApi(m) == a.(imageUrl := OptionalImage(a.imageUrl))
  {
    CanteenMenu(a.id, a.schoolId, a.date, a.dishes, a.dishes, OptionalImage(a.imageUrl))
  }

  lemma MenuFromApiOfToApi(m: CanteenMenu)
    requires MenuMonolingual(m) && NormalImage(m.imageUrl)
    ensures MenuFromApi(MenuToApi(m)) == m
  {
  }

  function MenuListFromApi(items: seq<CanteenMenuApiResponse>): (r: seq<CanteenMenu>)
    ensures |r| == |items|
    ensures forall i :: 0 <= i < |items| ==> r[i] == MenuFromApi(items[i])
  {
    Seqs.Map(items, MenuFromApi)
  }

  lemma MenuListRoundTrip(items: seq<CanteenMenuApiResponse>)
    requires forall i :: 0 <= i < |items| ==> NormalImage(items[i].imageUrl)
    ensures Seqs.Map(MenuListFromApi(items), MenuToApi) == items
  {
    Seqs.MapThenInverse(items, MenuFromApi, MenuToApi);
  }

  datatype HonorBoardApiResponse = HonorBoardApiResponse(id: int, schoolId: int, studentName: string, description: string, imageUrl: Option<string>)

  datatype HonorBoard = HonorBoard(id: int, schoolId: int, studentName: string, descriptionRu: string, descriptionKz: string, imageUrl: Option<string>)

  predicate HonorMonolingual(h: HonorBoard) {
    h.descriptionRu == h.descriptionKz
  }

  function HonorToApi(h: HonorBoard): HonorBoardApiResponse {
    HonorBoardApiResponse(h.id, h.schoolId, h.studentName, h.descriptionRu, h.imageUrl)
  }

  /** The honor-board mapper. */
  function HonorFromApi(a: HonorBoardApiResponse): (h: HonorBoard)
    ensures HonorMonolingual(h) && NormalImage(h.imageUrl)
    ensures HonorToApi(h) == a.(imageUrl := OptionalImage(a.imageUrl))
  {
    HonorBoard(a.id, a.schoolId, a.studentName, a.description, a.description, OptionalImage(a.imageUrl))
  }

  lemma HonorFromApiOfToApi(h: HonorBoard)
    requires HonorMonolingual(h) && NormalImage(h.imageUrl)
    ensures HonorFromApi(HonorToApi(h)) == h
  {
  }

  function HonorListFromApi(items: seq<HonorBoardApiResponse>): (r: seq<HonorBoard>)
    ensures |r| == |items|
    ensures forall i :: 0 <= i < |items| ==> r[i] == HonorFromApi(items[i])
  {
    Seqs.Map(items, HonorFromApi)
  }

  lemma HonorListRoundTrip(items: seq<HonorBoardApiResponse>)
    requires forall i :: 0 <= i < |items| ==> NormalImage(items[i].imageUrl)
    ensures Seqs.Map(HonorListFromApi(items), HonorToApi) == items
  {
    Seqs.MapThenInverse(items, HonorFromApi, HonorToApi);
  }

  /** The reply of `/auth/login`. */
  datatype LoginResponse = LoginResponse(token: string)

  // ---------------------------------------------------------------- the client

  class ApiClient {
    const baseUrl: string
    const auth: AuthStore
    const inBrowser: bool

    constructor (baseUrl: string, auth: AuthStore, inBrowser: bool)
      ensures this.baseUrl == baseUrl && this.auth == auth && this.inBrowser == inBrowser
    {
      this.baseUrl := baseUrl;
      this.auth := auth;
      this.inBrowser := inBrowser;
    }

    /**
     * What one request step leaves in the auth store and in storage: a 401 logs out;
     * otherwise a hydrated token is now the store's; otherwise nothing changed.
     */
    twostate predicate AuthAfterRequest(loggedOut: bool)
      reads this, auth, auth.storage
    {
      if loggedOut then
        auth.token == None && !auth.isAuthenticated && auth.storage.items == old(auth.storage.items) - {AuthTokenKey}
      else if Hydrates(old(auth.token), inBrowser, old(auth.storage.items)) then
        auth.token == Lookup(old(auth.storage.items), AuthTokenKey) && auth.isAuthenticated
        && auth.storage.items == old(auth.storage.items)
      else
        auth.token == old(auth.token) && auth.isAuthenticated == old(auth.isAuthenticated)
        && auth.storage.items == old(auth.storage.items)
    }

    /** The request step sends this for an endpoint, given the auth state it starts from. */
    function Sent(endpoint: string, options: RequestOptions, storeToken: Option<string>, items: map<string, string>): HttpRequest
      reads this
    {
      HttpRequest(baseUrl + endpoint, options.httpMethod, Headers(options.headers, TokenUsed(storeToken, inBrowser, items)), options.body)
    }

    /**
     * `request`: builds the headers, adopting the stored token when the store has none, sends
     * the request and settles with `Outcome(reply)`, logging out on a 401.
     */
    method Request<T>(endpoint: string, options: RequestOptions, reply: Response<T>) returns (sent: HttpRequest, r: Result<T, string>)
      modifies auth, auth.storage
      ensures sent == Sent(endpoint, options, old(auth.token), old(auth.storage.items))
      ensures r == Outcome(reply)
      ensures AuthAfterRequest(LogsOut(reply))
    {
      var token := auth.token;
      if !TruthyToken(token) && inBrowser {
        token := auth.storage.GetItem(AuthTokenKey);
        if TruthyToken(token) {
          auth.Login(token.value);
        }
      }
      var headers := map[ContentTypeHeader := JsonContentType] + options.headers;
      if TruthyToken(token) {
        headers := headers[AuthorizationHeader := BearerPrefix + token.value];
      }
      sent := HttpRequest(baseUrl + endpoint, options.httpMethod, headers, options.body);
      if LogsOut(reply) {
        auth.Logout();
      }
      r := Outcome(reply);
    }

    /** `login`: posts the credentials and, on success, stores the returned token before returning the reply. */
    method Login(email: string, password: string, reply: Response<LoginResponse>) returns (sent: HttpRequest, r: Result<LoginResponse, string>)
      modifies auth, auth.storage
      ensures sent == Sent("/auth/login", RequestOptions(Some("POST"), map[], Some(Credentials(email, password))), old(auth.token), old(auth.storage.items))
      ensures r == Outcome(reply)
      ensures r.Success? ==> auth.token == Some(r.value.token) && auth.isAuthenticated && auth.Synced()
      ensures r.Success? ==> auth.storage.items == old(auth.storage.items)[AuthTokenKey := r.value.token]
      ensures r.Failure? ==> AuthAfterRequest(LogsOut(reply))
    {
      sent, r := Request("/auth/login", RequestOptions(Some("POST"), map[], Some(Credentials(email, password))), reply);
      if r.Success? {
        auth.Login(r.value.token);
      }
    }

    /** `getNews`: guarded by the school id, then the scoped path and the news mapper. */
    method GetNews(schoolId: Option<int>, language: Option<Language>, reply: Response<seq<NewsApiResponse>>)
      returns (sent: Option<HttpRequest>, r: Result<seq<News>, string>)
      modifies auth, auth.storage
      ensures !TruthyId(schoolId) ==> sent == None && r == Failure(SchoolIdRequired)
      ensures !TruthyId(schoolId) ==> unchanged(auth, auth.storage)
      ensures TruthyId(schoolId) ==>
        sent == Some(Sent(ScopedPath("news", schoolId.value, language), NoOptions, old(auth.token), old(auth.storage.items)))
        && r == MapValue(Outcome(reply), NewsListFromApi) && AuthAfterRequest(LogsOut(reply))
    {
      if !TruthyId(schoolId) {
        return None, Failure(SchoolIdRequired);
      }
      var req, raw := Request(ScopedPath("news", schoolId.value, language), NoOptions, reply);
      sent, r := Some(req), MapValue(raw, NewsListFromApi);
    }

    /**
     * `getNewsById`: with a language, the collapsed reply `collapsed` is mapped; without one,
     * the bilingual reply `bilingual` is returned as it is. Only the reply of the request
     * actually made is consulted.
     */
    method GetNewsById(id: int, language: Option<Language>, collapsed: Response<NewsApiResponse>, bilingual: Response<News>)
      returns (sent: HttpRequest, r: Result<News, string>)
      modifies auth, auth.storage
      ensures sent == Sent(NewsByIdPath(id, language), NoOptions, old(auth.token), old(auth.storage.items))
      ensures language.Some? ==> r == MapValue(Outcome(collapsed), NewsFromApi) && AuthAfterRequest(LogsOut(collapsed))
      ensures language.None? ==> r == Outcome(bilingual) && AuthAfterRequest(LogsOut(bilingual))
    {
      if language.Some? {
        var raw;
        sent, raw := Request(NewsByIdPath(id, language), NoOptions, collapsed);
        r := MapValue(raw, NewsFromApi);
      } else {
        sent, r := Request(NewsByIdPath(id, language), NoOptions, bilingual);
      }
    }

    /** `getTeachers`: guarded by the school id; the records pass through untouched. */
    method GetTeachers<T>(schoolId: Option<int>, reply: Response<seq<T>>)
      returns (sent: Option<HttpRequest>, r: Result<seq<T>, string>)
      modifies auth, auth.storage
      ensures !TruthyId(schoolId) ==> sent == None && r == Failure(SchoolIdRequired)
      ensures !TruthyId(schoolId) ==> unchanged(auth, auth.storage)
      ensures TruthyId(schoolId) ==>
        sent == Some(Sent(ScopedPath("teachers", schoolId.value, None), NoOptions, old(auth.token), old(auth.storage.items)))
        && r == Outcome(reply) && AuthAfterRequest(LogsOut(reply))
    {
      if !TruthyId(schoolId) {
        return None, Failure(SchoolIdRequired);
      }
      var req;
      req, r := Request(ScopedPath("teachers", schoolId.value, None), NoOptions, reply);
      sent := Some(req);
    }

    /** `getSections`. */
    method GetSections(schoolId: Option<int>, language: Option<Language>, reply: Response<seq<SectionApiResponse>>)
      returns (sent: Option<HttpRequest>, r: Result<seq<Section>, string>)
      modifies auth, auth.storage
      ensures !TruthyId(schoolId) ==> sent == None && r == Failure(SchoolIdRequired)
      ensures !TruthyId(schoolId) ==> unchanged(auth, auth.storage)
      ensures TruthyId(schoolId) ==>
        sent == Some(Sent(ScopedPath("section", schoolId.value, language), NoOptions, old(auth.token), old(auth.storage.items)))
        && r == MapValue(Outcome(reply), SectionListFromApi) && AuthAfterRequest(LogsOut(reply))
    {
      if !TruthyId(schoolId) {
        return None, Failure(SchoolIdRequired);
      }
      var req, raw := Request(ScopedPath("section", schoolId.value, language), NoOptions, reply);
      sent, r := Some(req), MapValue(raw, SectionListFromApi);
    }

    /** `getCanteenMenu`. */
    method GetCanteenMenu(schoolId: Option<int>, language: Option<Language>, reply: Response<seq<CanteenMenuApiResponse>>)
      returns (sent: Option<HttpRequest>, r: Result<seq<CanteenMenu>, string>)
      modifies auth, auth.storage
      ensures !TruthyId(schoolId) ==> sent == None && r == Failure(SchoolIdRequired)
      ensures !TruthyId(schoolId) ==> unchanged(auth, auth.storage)
      ensures TruthyId(schoolId) ==>
        sent == Some(Sent(ScopedPath("canteen-menu", schoolId.value, language), NoOptions, old(auth.token), old(auth.storage.items)))
        && r == MapValue(Outcome(reply), MenuListFromApi) && AuthAfterRequest(LogsOut(reply))
    {
      if !TruthyId(schoolId) {
        return None, Failure(SchoolIdRequired);
      }
      var req, raw := Request(ScopedPath("canteen-menu", schoolId.value, language), NoOptions, reply);
      sent, r := Some(req), MapValue(raw, MenuListFromApi);
    }

    /** `getHonorBoard`. */
    method GetHonorBoard(schoolId: Option<int>, language: Option<Language>, reply: Response<seq<HonorBoardApiResponse>>)
      returns (sent: Option<HttpRequest>, r: Result<seq<HonorBoard>, string>)
      modifies auth, auth.storage
      ensures !TruthyId(schoolId) ==> sent == None && r == Failure(SchoolIdRequired)
      ensures !TruthyId(schoolId) ==> unchanged(auth, auth.storage)
      ensures TruthyId(schoolId) ==>
        sent == Some(Sent(ScopedPath("honor-board", schoolId.value, language), NoOptions, old(auth.token), old(auth.storage.items)))
        && r == MapValue(Outcome(reply), HonorListFromApi) && AuthAfterRequest(LogsOut(reply))
    {
      if !TruthyId(schoolId) {
        return None, Failure(SchoolIdRequired);
      }
      var req, raw := Request(ScopedPath("honor-board", schoolId.value, language), NoOptions, reply);
      sent, r := Some(req), MapValue(raw, HonorListFromApi);
    }

    /** `getClasses`: no guard; the school segment only for a truthy id. */
    method GetClasses<T>(schoolId: Option<int>, reply: Response<seq<T>>) returns (sent: HttpRequest, r: Result<seq<T>, string>)
      modifies auth, auth.storage
      ensures sent == Sent(ClassesPath(schoolId), NoOptions, old(auth.token), old(auth.storage.items))
      ensures r == Outcome(reply) && AuthAfterRequest(LogsOut(reply))
    {
      sent, r := Request(ClassesPath(schoolId), NoOptions, reply);
    }

    /** `getSchedule`: no guard; school and teacher segments independently. */
    method GetSchedule<T>(schoolId: Option<int>, teacherId: Option<int>, reply: Response<seq<T>>)
      returns (sent: HttpRequest, r: Result<seq<T>, string>)
      modifies auth, auth.storage
      ensures sent == Sent(SchedulePath(schoolId, teacherId), NoOptions, old(auth.token), old(auth.storage.items))
      ensures r == Outcome(reply) && AuthAfterRequest(LogsOut(reply))
    {
      sent, r := Request(SchedulePath(schoolId, teacherId), NoOptions, reply);
    }
  }
}
