/**
 * The mail-side half of the sync pipeline: the message shape the mail provider
 * returns, header parsing, body extraction and decoding, the message-to-task
 * converter, and the client-side merging of per-label fetch results (the
 * "not older than" filter, dedup by message id, newest-first order).
 * The provider itself is the parameter `fetch`.
 */
module Gmail {
  import opened Wrappers
  import opened Seqs
  import opened Types
  import Text

  datatype Header = Header(name: string, value: string)
  datatype Body = Body(data: Option<string>)
  datatype Part = Part(mimeType: string, body: Body)
  datatype Payload = Payload(headers: seq<Header>, body: Option<Body>, parts: Option<seq<Part>>)

  /** A message; `internalDate` is the provider's epoch-millisecond string, already parsed. */
  datatype GmailMessage = GmailMessage(
    id: string,
    threadId: string,
    labelIds: seq<string>,
    snippet: string,
    payload: Payload,
    internalDate: int)

  // ---------------------------------------------------------------- headers

  /** The `reduce` of `parseHeaders`: each header stored under its lower-cased name, in order. */
  function HeaderMap(headers: seq<Header>): map<string, string> {
    if headers == [] then map[]
    else
      var last := headers[|headers| - 1];
      HeaderMap(headers[..|headers| - 1])[Text.ToLower(last.name) := last.value]
  }

  /**
   * A name is in the map exactly when some header has it (ignoring ASCII case),
   * and the value kept is that of the last such header: a later duplicate
   * overwrites an earlier one.
   */
  lemma {:induction false} HeaderMapLookup(headers: seq<Header>, key: string)
    ensures key in HeaderMap(headers) <==> exists i :: 0 <= i < |headers| && Text.ToLower(headers[i].name) == key
    ensures key in HeaderMap(headers) ==>
              exists i :: 0 <= i < |headers| && Text.ToLower(headers[i].name) == key
                          && HeaderMap(headers)[key] == headers[i].value
                          && forall j :: i < j < |headers| ==> Text.ToLower(headers[j].name) != key
  {
    HeaderMapHas(headers, key);
    if key in HeaderMap(headers) {
      var i := HeaderMapLast(headers, key);
    }
  }

  lemma {:induction false} HeaderMapHas(headers: seq<Header>, key: string)
    ensures key in HeaderMap(headers) <==> exists i :: 0 <= i < |headers| && Text.ToLower(headers[i].name) == key
  {
    if headers != [] {
      var init := headers[..|headers| - 1];
      HeaderMapHas(init, key);
      assert forall i :: 0 <= i < |init| ==> init[i] == headers[i];
    }
  }

  /** The header whose value a name maps to: the last one with that name. */
  lemma {:induction false} HeaderMapLast(headers: seq<Header>, key: string) returns (i: nat)
    requires key in HeaderMap(headers)
    ensures i < |headers| && Text.ToLower(headers[i].name) == key && HeaderMap(headers)[key] == headers[i].value
    ensures forall j :: i < j < |headers| ==> Text.ToLower(headers[j].name) != key
  {
    var init := headers[..|headers| - 1];
    if Text.ToLower(headers[|headers| - 1].name) == key {
      i := |headers| - 1;
    } else {
      i := HeaderMapLast(init, key);
      assert init[i] == headers[i];
      assert forall j :: i < j < |init| ==> init[j] == headers[j];
    }
  }

  datatype ParsedHeaders = ParsedHeaders(subject: string, from: string, to: string, date: string)

  /** `headerMap[key] || ''`. */
  function HeaderOrEmpty(m: map<string, string>, key: string): string {
    if key in m then m[key] else ""
  }

  function ParseHeaders(headers: seq<Header>): ParsedHeaders {
    var m := HeaderMap(headers);
    ParsedHeaders(HeaderOrEmpty(m, "subject"), HeaderOrEmpty(m, "from"),
                  HeaderOrEmpty(m, "to"), HeaderOrEmpty(m, "date"))
  }

  /** A field with no header of that name (in any case) comes back as the empty string. */
  lemma ParseHeadersDefaults(headers: seq<Header>)
    ensures (forall i :: 0 <= i < |headers| ==> Text.ToLower(headers[i].name) != "subject")
              ==> ParseHeaders(headers).subject == ""
    ensures (forall i :: 0 <= i < |headers| ==> Text.ToLower(headers[i].name) != "from")
              ==> ParseHeaders(headers).from == ""
    ensures (forall i :: 0 <= i < |headers| ==> Text.ToLower(headers[i].name) != "to")
              ==> ParseHeaders(headers).to == ""
    ensures (forall i :: 0 <= i < |headers| ==> Text.ToLower(headers[i].name) != "date")
              ==> ParseHeaders(headers).date == ""
  {
    HeaderMapLookup(headers, "subject");
    HeaderMapLookup(headers, "from");
    HeaderMapLookup(headers, "to");
    HeaderMapLookup(headers, "date");
  }

  // ---------------------------------------------------------------- base64

  /** Sextet value of `c` in the standard base64 alphabet (section 4 of RFC 4648), -1 outside it. */
  function StdValue(c: char): int {
    if 'A' <= c <= 'Z' then c as int - 'A' as int
    else if 'a' <= c <= 'z' then c as int - 'a' as int + 26
    else if '0' <= c <= '9' then c as int - '0' as int + 52
    else if c == '+' then 62
    else if c == '/' then 63
    else -1
  }

  /** Sextet value of `c` in the URL- and filename-safe alphabet (section 5 of RFC 4648), -1 outside it. */
  function UrlValue(c: char): int {
    if c == '-' then 62 else if c == '_' then 63 else if c == '+' || c == '/' then -1 else StdValue(c)
  }

  /** `data.replace(/-/g, '+').replace(/_/g, '/')`. */
  function UrlToStandard(s: string): (r: string)
    ensures |r| == |s|
  {
    seq(|s|, i requires 0 <= i < |s| => if s[i] == '-' then '+' else if s[i] == '_' then '/' else s[i])
  }

  /** The rewrite carries every base64url character to the standard character with the same value. */
  lemma UrlToStandardKeepsValues(s: string)
    ensures forall i :: 0 <= i < |s| && UrlValue(s[i]) >= 0 ==> StdValue(UrlToStandard(s)[i]) == UrlValue(s[i])
  {
  }

  predicate IsAsciiWhitespace(c: char) {
    c == '\t' || c == '\n' || c == '\U{000C}' || c == '\r' || c == ' '
  }

  const NotAsciiWhitespace: char -> bool := c => !IsAsciiWhitespace(c)

  /** Up to two trailing `=` are dropped when the length is a multiple of four. */
  function StripPadding(t: string): (r: string)
    ensures |r| <= |t|
  {
    if |t| % 4 == 0 && |t| >= 2 && t[|t| - 2] == '=' && t[|t| - 1] == '=' then t[..|t| - 2]
    else if |t| % 4 == 0 && |t| >= 1 && t[|t| - 1] == '=' then t[..|t| - 1]
    else t
  }

  function Byte(x: int): char
    requires 0 <= x < 256
  {
    x as char
  }

  predicate Sextets(v: seq<int>) {
    forall i :: 0 <= i < |v| ==> 0 <= v[i] < 64
  }

  /** Four sextets make three bytes; a trailing two or three make one or two, the spare bits dropped. */
  function DecodeSextets(v: seq<int>): (r: string)
    requires Sextets(v) && |v| % 4 != 1
    ensures |r| == |v| * 3 / 4
    ensures forall i :: 0 <= i < |r| ==> r[i] as int < 256
  {
    if |v| == 0 then []
    else if |v| == 2 then [Byte((v[0] * 64 + v[1]) / 16)]
    else if |v| == 3 then
      var n := (v[0] * 4096 + v[1] * 64 + v[2]) / 4;
      [Byte(n / 256), Byte(n % 256)]
    else
      var n := v[0] * 262144 + v[1] * 4096 + v[2] * 64 + v[3];
      [Byte(n / 65536), Byte(n / 256 % 256), Byte(n % 256)] + DecodeSextets(v[4..])
  }

  /**
   * `atob`, the forgiving base64 decode of the HTML standard: ASCII whitespace is
   * ignored, up to two `=` of padding are dropped, and a length of 1 modulo 4 or
   * a character outside the standard alphabet is a failure.
   */
  function Atob(s: string): (r: Option<string>)
    ensures r.Some? ==> |r.value| == |StripPadding(Filter(s, NotAsciiWhitespace))| * 3 / 4
  {
    var t := StripPadding(Filter(s, NotAsciiWhitespace));
    if |t| % 4 == 1 then None
    else if exists i | 0 <= i < |t| :: StdValue(t[i]) < 0 then None
    else Some(DecodeSextets(seq(|t|, i requires 0 <= i < |t| => StdValue(t[i]))))
  }

  /** A character outside both alphabets always makes the decode fail. */
  lemma AtobRejectsForeign(s: string, i: nat)
    requires i < |s| && StdValue(s[i]) < 0 && !IsAsciiWhitespace(s[i]) && s[i] != '='
    ensures Atob(s) == None
  {
    var f := Filter(s, NotAsciiWhitespace);
    FilterMembers(s, NotAsciiWhitespace);
    assert s[i] in f;
    var j :| 0 <= j < |f| && f[j] == s[i];
    StripPaddingKeeps(f, j);
    var t := StripPadding(f);
    assert StdValue(t[j]) < 0;
  }

  /** Stripping the padding keeps every character other than `=` in place. */
  lemma StripPaddingKeeps(t: string, j: nat)
    requires j < |t| && t[j] != '='
    ensures j < |StripPadding(t)| && StripPadding(t)[j] == t[j]
  {
  }

  // ---------------------------------------------------------------- body

  predicate IsPlainTextWithData(p: Part) {
    p.mimeType == "text/plain" && Truthy(p.body.data)
  }

  /** The data of the first `text/plain` part that has data, `""` when there is none. */
  function FirstPlainTextData(parts: seq<Part>): string {
    if parts == [] then ""
    else if IsPlainTextWithData(parts[0]) then parts[0].body.data.value
    else FirstPlainTextData(parts[1..])
  }

  lemma {:induction false} FirstPlainTextDataIsFirst(parts: seq<Part>)
    ensures FirstPlainTextData(parts) == "" <==> forall i :: 0 <= i < |parts| ==> !IsPlainTextWithData(parts[i])
    ensures FirstPlainTextData(parts) != "" ==>
              exists i :: 0 <= i < |parts| && IsPlainTextWithData(parts[i])
                          && FirstPlainTextData(parts) == parts[i].body.data.value
                          && forall j :: 0 <= j < i ==> !IsPlainTextWithData(parts[j])
  {
    if parts != [] && !IsPlainTextWithData(parts[0]) {
      FirstPlainTextDataIsFirst(parts[1..]);
      assert forall i :: 1 <= i < |parts| ==> parts[1..][i - 1] == parts[i];
      if FirstPlainTextData(parts) != "" {
        var k :| 0 <= k < |parts| - 1 && IsPlainTextWithData(parts[1..][k])
                 && FirstPlainTextData(parts[1..]) == parts[1..][k].body.data.value
                 && forall j :: 0 <= j < k ==> !IsPlainTextWithData(parts[1..][j]);
        assert forall j :: 1 <= j < k + 1 ==> parts[j] == parts[1..][j - 1];
      }
    }
  }

  /** The encoded body chosen: top-level data wins, then the first plain-text part. */
  function SelectBodyData(p: Payload): string {
    if p.body.Some? && Truthy(p.body.value.data) then p.body.value.data.value
    else if p.parts.Some? then FirstPlainTextData(p.parts.value)
    else ""
  }

  /** The text `extractBodyText` returns. */
  function BodyText(m: GmailMessage): string {
    var data := SelectBodyData(m.payload);
    if data == "" then m.snippet
    else match Atob(UrlToStandard(data))
      case Some(decoded) => decoded
      case None => m.snippet
  }

  /**
   * `extractBodyText`: the top-level body data if there is any, else the first
   * `text/plain` part with data, decoded from base64url; the snippet when there
   * is no data or the decode fails.
   */
  method ExtractBodyText(m: GmailMessage) returns (text: string)
    ensures text == BodyText(m)
    ensures SelectBodyData(m.payload) == "" ==> text == m.snippet
    ensures Atob(UrlToStandard(SelectBodyData(m.payload))).None? ==> text == m.snippet
  {
    var bodyData := "";
    if m.payload.body.Some? && Truthy(m.payload.body.value.data) {
      bodyData := m.payload.body.value.data.value;
    } else if m.payload.parts.Some? {
      var parts := m.payload.parts.value;
      var i := 0;
      while i < |parts|
        invariant 0 <= i <= |parts|
        invariant bodyData == "" && FirstPlainTextData(parts) == FirstPlainTextData(parts[i..])
      {
        if IsPlainTextWithData(parts[i]) {
          bodyData := parts[i].body.data.value;
          break;
        }
        assert parts[i..][1..] == parts[i + 1..];
        i := i + 1;
      }
    }
    if bodyData != "" {
      var decoded := Atob(UrlToStandard(bodyData));
      if decoded.Some? {
        return decoded.value;
      }
      return m.snippet;
    }
    return m.snippet;
  }

  // ---------------------------------------------------------------- converter

  /** Keyword priority from the lower-cased subject; the first matching rule wins. */
  function InferPriority(subject: string): Priority {
    var s := Text.ToLower(subject);
    if Text.Contains(s, "urgent") || Text.Contains(s, "asap") then Urgent
    else if Text.Contains(s, "important") || Text.Contains(s, "priority") then High
    else if Text.Contains(s, "fyi") || Text.Contains(s, "reminder") then Low
    else Medium
  }

  /** Each priority is chosen exactly when its rule is the first that matches. */
  lemma InferPriorityRules(subject: string)
    ensures var s := Text.ToLower(subject);
            var urgent := Text.Contains(s, "urgent") || Text.Contains(s, "asap");
            var high := Text.Contains(s, "important") || Text.Contains(s, "priority");
            var low := Text.Contains(s, "fyi") || Text.Contains(s, "reminder");
            && (InferPriority(subject) == Urgent <==> urgent)
            && (InferPriority(subject) == High <==> !urgent && high)
            && (InferPriority(subject) == Low <==> !urgent && !high && low)
            && (InferPriority(subject) == Medium <==> !urgent && !high && !low)
  {
  }

  /** A shouted "URGENT" is urgent. */
  lemma InferPriorityUrgent()
    ensures InferPriority("URGENT: respond now") == Urgent
  {
    var u := Text.ToLower("URGENT: respond now");
    assert u[0..6] == "urgent";
    assert Text.OccursAt(u, "urgent", 0);
  }

  /** An "FYI" is low. */
  lemma InferPriorityFyi()
    ensures InferPriority("FYI notes") == Low
  {
    var f := Text.ToLower("FYI notes");
    assert f == "fyi notes";
    assert Text.OccursAt(f, "fyi", 0);
    Text.MissingCharNotContained(f, "urgent", 0);
    Text.MissingCharNotContained(f, "asap", 0);
    Text.MissingCharNotContained(f, "important", 2);
    Text.MissingCharNotContained(f, "priority", 0);
  }

  /** A subject with no keyword is medium. */
  lemma InferPriorityNoKeyword()
    ensures InferPriority("Lunch") == Medium
  {
    var l := Text.ToLower("Lunch");
    assert l == "lunch";
    Text.MissingCharNotContained(l, "urgent", 1);
    Text.MissingCharNotContained(l, "asap", 0);
    Text.MissingCharNotContained(l, "important", 0);
    Text.MissingCharNotContained(l, "priority", 0);
    Text.MissingCharNotContained(l, "fyi", 0);
    Text.MissingCharNotContained(l, "reminder", 0);
  }

  /** `body.substring(0, 500) + (body.length > 500 ? '...' : '')`. */
  function Excerpt(body: string): (r: string)
    ensures |r| <= 503
    ensures |body| <= 500 ==> r == body
    ensures |body| > 500 ==> |r| == 503 && r[..500] == body[..500] && r[500..] == "..."
  {
    (if |body| <= 500 then body else body[..500]) + (if |body| > 500 then "..." else "")
  }

  /** The characters `split(/[\s,<>]/)` cuts at. */
  predicate IsAddressSeparator(c: char) {
    Text.IsWhitespace(c) || c == ',' || c == '<' || c == '>'
  }

  const NotAddressSeparator: char -> bool := c => !IsAddressSeparator(c)

  /** `s.split(/[\s,<>]/)`: one token more than there are separators, empty tokens kept. */
  function SplitAddressTokens(s: string): (r: seq<string>)
    ensures |r| >= 1
  {
    if s == [] then [""]
    else
      var rest := SplitAddressTokens(s[1..]);
      if IsAddressSeparator(s[0]) then [""] + rest else [[s[0]] + rest[0]] + rest[1..]
  }

  /** No token holds a separator. */
  lemma {:induction false} SplitAddressTokensClean(s: string)
    ensures forall k, i :: 0 <= k < |SplitAddressTokens(s)| && 0 <= i < |SplitAddressTokens(s)[k]|
              ==> !IsAddressSeparator(SplitAddressTokens(s)[k][i])
  {
    if s != [] {
      var rest := SplitAddressTokens(s[1..]);
      SplitAddressTokensClean(s[1..]);
      var r := SplitAddressTokens(s);
      if !IsAddressSeparator(s[0]) {
        forall k, i | 0 <= k < |r| && 0 <= i < |r[k]| ensures !IsAddressSeparator(r[k][i]) {
          if k == 0 {
            if i > 0 { assert r[0][i] == rest[0][i - 1]; }
          } else {
            assert r[k] == rest[k];
          }
        }
      }
    }
  }

  /** The tokens spell out `s` with its separators taken out. */
  lemma {:induction false} SplitAddressTokensJoin(s: string)
    ensures Flatten(SplitAddressTokens(s)) == Filter(s, NotAddressSeparator)
  {
    if s != [] {
      var rest := SplitAddressTokens(s[1..]);
      SplitAddressTokensJoin(s[1..]);
      var r := SplitAddressTokens(s);
      assert s == [s[0]] + s[1..];
      FilterCons(s[0], s[1..], NotAddressSeparator);
      assert rest == [rest[0]] + rest[1..];
      assert Flatten(rest) == rest[0] + Flatten(rest[1..]);
      if IsAddressSeparator(s[0]) {
        assert ([""] + rest)[1..] == rest;
      } else {
        assert r[1..] == rest[1..];
        assert Flatten(r) == ([s[0]] + rest[0]) + Flatten(rest[1..]);
      }
    }
  }

  /** The first token holding an `@`. */
  function FirstTokenWithAt(tokens: seq<string>): Option<string> {
    if tokens == [] then None
    else if '@' in tokens[0] then Some(tokens[0])
    else FirstTokenWithAt(tokens[1..])
  }

  lemma {:induction false} FirstTokenWithAtIsFirst(tokens: seq<string>)
    ensures FirstTokenWithAt(tokens).None? <==> forall k :: 0 <= k < |tokens| ==> '@' !in tokens[k]
    ensures FirstTokenWithAt(tokens).Some? ==>
              exists k :: 0 <= k < |tokens| && tokens[k] == FirstTokenWithAt(tokens).value && '@' in tokens[k]
                          && forall j :: 0 <= j < k ==> '@' !in tokens[j]
  {
    if tokens != [] && '@' !in tokens[0] {
      FirstTokenWithAtIsFirst(tokens[1..]);
      assert forall k :: 1 <= k < |tokens| ==> tokens[1..][k - 1] == tokens[k];
      if FirstTokenWithAt(tokens).Some? {
        var k :| 0 <= k < |tokens| - 1 && tokens[1..][k] == FirstTokenWithAt(tokens).value && '@' in tokens[1..][k]
                 && forall j :: 0 <= j < k ==> '@' !in tokens[1..][j];
        assert forall j :: 1 <= j < k + 1 ==> tokens[j] == tokens[1..][j - 1];
      }
    }
  }

  /** `accountEmail || to.split(/[\s,<>]/).find(p => p.includes('@')) || undefined`. */
  function GuessAccountEmail(accountEmail: Option<string>, to: string): Option<string> {
    if Truthy(accountEmail) then accountEmail else FirstTokenWithAt(SplitAddressTokens(to))
  }

  /**
   * The explicit account when it is non-empty; otherwise the first token of the To
   * header that holds an `@` (it holds no separator); nothing when no token does.
   */
  lemma GuessAccountEmailCases(accountEmail: Option<string>, to: string)
    ensures Truthy(accountEmail) ==> GuessAccountEmail(accountEmail, to) == accountEmail
    ensures !Truthy(accountEmail) ==>
              var tokens := SplitAddressTokens(to);
              && (GuessAccountEmail(accountEmail, to).None? <==> forall k :: 0 <= k < |tokens| ==> '@' !in tokens[k])
              && (GuessAccountEmail(accountEmail, to).Some? ==>
                    var g := GuessAccountEmail(accountEmail, to).value;
                    && '@' in g
                    && (forall i :: 0 <= i < |g| ==> !IsAddressSeparator(g[i]))
                    && exists k :: 0 <= k < |tokens| && tokens[k] == g
                                   && forall j :: 0 <= j < k ==> '@' !in tokens[j])
  {
    if !Truthy(accountEmail) {
      SplitAddressTokensClean(to);
      SplitAddressTokensJoin(to);
      FirstTokenWithAtIsFirst(SplitAddressTokens(to));
    }
  }

  datatype EmailTaskData = EmailTaskData(
    title: string,
    description: string,
    priority: Priority,
    labelName: string,
    gmailId: string,
    fromEmail: string,
    emailSubject: string,
    emailSnippet: string,
    accountEmail: Option<string>)

  /**
   * `convertMessageToTask`. It always produces a payload: the subject as the title
   * (a placeholder when empty), an excerpt of the body of at most 503 characters,
   * the keyword priority, the label it was given, the message id, the raw From
   * header, the subject and snippet unchanged and the guessed account.
   */
  function ConvertMessageToTask(m: GmailMessage, defaultLabel: string, accountEmail: Option<string>): (r: EmailTaskData)
    ensures r.title != "" && (ParseHeaders(m.payload.headers).subject != "" ==> r.title == ParseHeaders(m.payload.headers).subject)
    ensures ParseHeaders(m.payload.headers).subject == "" ==> r.title == "No Subject"
    ensures r.description == Excerpt(BodyText(m)) && |r.description| <= 503
    ensures |BodyText(m)| <= 500 ==> r.description == BodyText(m)
    ensures |BodyText(m)| > 500 ==> r.description == BodyText(m)[..500] + "..."
    ensures r.priority == InferPriority(ParseHeaders(m.payload.headers).subject)
    ensures r.labelName == defaultLabel && r.gmailId == m.id && r.emailSnippet == m.snippet
    ensures r.fromEmail == ParseHeaders(m.payload.headers).from && r.emailSubject == ParseHeaders(m.payload.headers).subject
    ensures r.accountEmail == GuessAccountEmail(accountEmail, ParseHeaders(m.payload.headers).to)
  {
    var headers := ParseHeaders(m.payload.headers);
    var bodyText := BodyText(m);
    EmailTaskData(
      if headers.subject != "" then headers.subject else "No Subject",
      Excerpt(bodyText),
      InferPriority(headers.subject),
      defaultLabel,
      m.id,
      headers.from,
      headers.subject,
      m.snippet,
      GuessAccountEmail(accountEmail, headers.to))
  }

  // ---------------------------------------------------------------- fetching and merging

  datatype FetchRequest = FetchRequest(labelId: string, maxResults: nat, newerThan: Option<int>)

  /** What one per-label fetch gives back; `FetchFailed` is a thrown transport or auth error. */
  datatype FetchResult = Fetched(messages: seq<GmailMessage>) | FetchFailed

  /**
   * `getMessagesByLabel`: the provider's answer, of which at most `maxResults`
   * messages are listed. The provider-side date query is the provider's business.
   */
  function GetMessagesByLabel(fetch: FetchRequest -> FetchResult, labelId: string, maxResults: nat, newerThan: Option<int>): (r: FetchResult)
    ensures r.Fetched? ==> |r.messages| <= maxResults
  {
    match fetch(FetchRequest(labelId, maxResults, newerThan))
    case Fetched(ms) => Fetched(Take(ms, maxResults))
    case FetchFailed => FetchFailed
  }

  const MessageId: GmailMessage -> string := (m: GmailMessage) => m.id

  /** The comparator `parseInt(b.internalDate) - parseInt(a.internalDate)`: newest first. */
  const NewestFirst: (GmailMessage, GmailMessage) -> bool := (a: GmailMessage, b: GmailMessage) => a.internalDate >= b.internalDate

  function NotOlderThan(since: int): GmailMessage -> bool {
    (m: GmailMessage) => m.internalDate >= since
  }

  lemma NewestFirstIsPreorder()
    ensures TotalPreorder(NewestFirst)
  {
  }

  /**
   * The messages the per-label loop collects, label by label: the client-side
   * `>= since` filter is applied when `since` is given. A failed fetch aborts the
   * whole collection.
   */
  function Collect(fetch: FetchRequest -> FetchResult, labels: seq<string>, maxResults: nat, since: Option<int>): Option<seq<GmailMessage>> {
    if labels == [] then Some([])
    else match Collect(fetch, labels[..|labels| - 1], maxResults, since)
      case None => None
      case Some(acc) =>
        match GetMessagesByLabel(fetch, labels[|labels| - 1], maxResults, since)
        case FetchFailed => None
        case Fetched(ms) => Some(acc + Kept(ms, since))
  }

  /** `m` is among the messages the listing of one of `labels` gave back. */
  ghost predicate Listed(fetch: FetchRequest -> FetchResult, labels: seq<string>, maxResults: nat, since: Option<int>, m: GmailMessage) {
    exists i :: 0 <= i < |labels| && GetMessagesByLabel(fetch, labels[i], maxResults, since).Fetched?
                && m in GetMessagesByLabel(fetch, labels[i], maxResults, since).messages
  }

  /** What one label's listing leaves after the `>= since` filter. */
  function Kept(ms: seq<GmailMessage>, since: Option<int>): seq<GmailMessage> {
    if since.Some? then Filter(ms, NotOlderThan(since.value)) else ms
  }

  /** A message passes the filter when it is listed and not older than `since`. */
  lemma KeptMembers(ms: seq<GmailMessage>, since: Option<int>, m: GmailMessage)
    ensures m in Kept(ms, since) <==> m in ms && (since.Some? ==> m.internalDate >= since.value)
  {
    if since.Some? {
      var p := NotOlderThan(since.value);
      FilterMembers(ms, p);
      if m in Filter(ms, p) {
        assert p(m) && m in multiset(ms);
      }
      if m in ms && m.internalDate >= since.value {
        var i :| 0 <= i < |ms| && ms[i] == m;
        assert p(ms[i]);
      }
    }
  }

  /** A collection that succeeds is the collection of all labels but the last, plus the last label's kept listing. */
  lemma CollectSnoc(fetch: FetchRequest -> FetchResult, labels: seq<string>, maxResults: nat, since: Option<int>)
    requires labels != [] && Collect(fetch, labels, maxResults, since).Some?
    ensures var init := labels[..|labels| - 1];
            var last := GetMessagesByLabel(fetch, labels[|labels| - 1], maxResults, since);
            && Collect(fetch, init, maxResults, since).Some? && last.Fetched?
            && Collect(fetch, labels, maxResults, since).value == Collect(fetch, init, maxResults, since).value + Kept(last.messages, since)
  {
  }

  /** A message listed for `labels` is listed for all but the last label, or for the last one. */
  lemma ListedSnoc(fetch: FetchRequest -> FetchResult, labels: seq<string>, maxResults: nat, since: Option<int>, m: GmailMessage)
    requires labels != []
    ensures var last := GetMessagesByLabel(fetch, labels[|labels| - 1], maxResults, since);
            Listed(fetch, labels, maxResults, since, m) <==>
              Listed(fetch, labels[..|labels| - 1], maxResults, since, m) || (last.Fetched? && m in last.messages)
  {
    var init := labels[..|labels| - 1];
    assert forall i :: 0 <= i < |init| ==> init[i] == labels[i];
    if Listed(fetch, labels, maxResults, since, m) {
      var i :| 0 <= i < |labels| && GetMessagesByLabel(fetch, labels[i], maxResults, since).Fetched?
               && m in GetMessagesByLabel(fetch, labels[i], maxResults, since).messages;
      if i < |init| {
        assert init[i] == labels[i];
      }
    }
    if Listed(fetch, init, maxResults, since, m) {
      var i :| 0 <= i < |init| && GetMessagesByLabel(fetch, init[i], maxResults, since).Fetched?
               && m in GetMessagesByLabel(fetch, init[i], maxResults, since).messages;
      assert labels[i] == init[i];
    }
  }

  /** A collection that succeeds holds exactly the listed messages that pass the `>= since` filter. */
  lemma {:induction false} CollectMembers(fetch: FetchRequest -> FetchResult, labels: seq<string>, maxResults: nat, since: Option<int>, m: GmailMessage)
    requires Collect(fetch, labels, maxResults, since).Some?
    ensures m in Collect(fetch, labels, maxResults, since).value <==>
              Listed(fetch, labels, maxResults, since, m) && (since.Some? ==> m.internalDate >= since.value)
  {
    if labels != [] {
      var init := labels[..|labels| - 1];
      CollectSnoc(fetch, labels, maxResults, since);
      CollectMembers(fetch, init, maxResults, since, m);
      ListedSnoc(fetch, labels, maxResults, since, m);
      KeptMembers(GetMessagesByLabel(fetch, labels[|labels| - 1], maxResults, since).messages, since, m);
    }
  }

  /** With a watermark, nothing collected is older than it. */
  lemma {:induction false} CollectedNotOlder(fetch: FetchRequest -> FetchResult, labels: seq<string>, maxResults: nat, since: int)
    requires Collect(fetch, labels, maxResults, Some(since)).Some?
    ensures forall m :: m in Collect(fetch, labels, maxResults, Some(since)).value ==> m.internalDate >= since
  {
    if labels != [] {
      var init := labels[..|labels| - 1];
      CollectedNotOlder(fetch, init, maxResults, since);
      var acc := Collect(fetch, init, maxResults, Some(since)).value;
      var ms := GetMessagesByLabel(fetch, labels[|labels| - 1], maxResults, Some(since)).messages;
      FilterMembers(ms, NotOlderThan(since));
      assert Collect(fetch, labels, maxResults, Some(since)).value == acc + Filter(ms, NotOlderThan(since));
    }
  }

  lemma MulStep(n: nat, m: nat)
    ensures (n + 1) * m == n * m + m
  {
  }

  /** Each label contributes at most `maxResults` messages. */
  lemma {:induction false} CollectedBound(fetch: FetchRequest -> FetchResult, labels: seq<string>, maxResults: nat, since: Option<int>)
    requires Collect(fetch, labels, maxResults, since).Some?
    ensures |Collect(fetch, labels, maxResults, since).value| <= |labels| * maxResults
  {
    if labels != [] {
      var init := labels[..|labels| - 1];
      CollectedBound(fetch, init, maxResults, since);
      var ms := GetMessagesByLabel(fetch, labels[|labels| - 1], maxResults, since).messages;
      if since.Some? {
        assert |Filter(ms, NotOlderThan(since.value))| <= |ms|;
      }
      MulStep(|init|, maxResults);
    }
  }

  /**
   * The common result shape: deduped by id, ordered newest first, drawn from
   * `all`; the first message seen with each id is kept, so no id is lost.
   */
  lemma UniqueNewestFirst(all: seq<GmailMessage>)
    ensures var r := SortBy(DedupBy(all, MessageId), NewestFirst);
            && SortedBy(r, NewestFirst)
            && UniqueKeys(r, MessageId)
            && multiset(r) <= multiset(all)
            && (forall i :: 0 <= i < |all| && FirstWithKey(all, MessageId, i) ==> all[i] in r)
            && (forall i :: 0 <= i < |all| ==> !KeyAbsent(r, MessageId, all[i].id))
  {
    var d := DedupBy(all, MessageId);
    var r := SortBy(d, NewestFirst);
    NewestFirstIsPreorder();
    SortSorted(d, NewestFirst);
    SortPermutes(d, NewestFirst);
    SortUnique(d, NewestFirst, MessageId);
    forall x | x in d ensures x in r {
      assert x in multiset(d);
    }
    forall i | 0 <= i < |all| ensures !KeyAbsent(r, MessageId, all[i].id) {
      DedupKeepsKeys(all, MessageId, i);
      var x :| x in d && x.id == all[i].id;
      var j :| 0 <= j < |r| && r[j] == x;
    }
  }

  /** The result of `getNewMessagesSince`, `None` when a fetch throws. */
  function NewMessagesSince(fetch: FetchRequest -> FetchResult, labelIds: seq<string>, lastSyncTime: int, maxResults: nat): Option<seq<GmailMessage>> {
    match Collect(fetch, labelIds, maxResults, Some(lastSyncTime))
    case None => None
    case Some(all) => Some(SortBy(DedupBy(all, MessageId), NewestFirst))
  }

  /**
   * `getNewMessagesSince`: per label, the fetched messages not older than the
   * watermark (inclusive), merged; then one message per id, the first seen, and
   * newest first. A failed fetch is rethrown as `None`.
   */
  method GetNewMessagesSince(fetch: FetchRequest -> FetchResult, labelIds: seq<string>, lastSyncTime: int, maxResults: nat)
    returns (r: Option<seq<GmailMessage>>)
    ensures r == NewMessagesSince(fetch, labelIds, lastSyncTime, maxResults)
    ensures r.None? <==> Collect(fetch, labelIds, maxResults, Some(lastSyncTime)).None?
    ensures r.Some? ==>
              && SortedBy(r.value, NewestFirst)
              && UniqueKeys(r.value, MessageId)
              && (forall m :: m in r.value ==> m.internalDate >= lastSyncTime)
              && multiset(r.value) <= multiset(Collect(fetch, labelIds, maxResults, Some(lastSyncTime)).value)
    ensures r.Some? ==>
              && (forall m :: m in r.value ==> Listed(fetch, labelIds, maxResults, Some(lastSyncTime), m))
              && (forall m :: Listed(fetch, labelIds, maxResults, Some(lastSyncTime), m) && m.internalDate >= lastSyncTime ==>
                    !KeyAbsent(r.value, MessageId, m.id))
  {
    var allNewMessages: seq<GmailMessage> := [];
    for i := 0 to |labelIds|
      invariant Collect(fetch, labelIds[..i], maxResults, Some(lastSyncTime)) == Some(allNewMessages)
    {
      assert labelIds[..i + 1][..i] == labelIds[..i];
      var messages := GetMessagesByLabel(fetch, labelIds[i], maxResults, Some(lastSyncTime));
      if messages.FetchFailed? {
        CollectAbortsOnFailure(fetch, labelIds, i, maxResults, Some(lastSyncTime));
        return None;
      }
      var filtered := Filter(messages.messages, NotOlderThan(lastSyncTime));
      allNewMessages := allNewMessages + filtered;
    }
    assert labelIds[..|labelIds|] == labelIds;
    var unique := SortBy(DedupBy(allNewMessages, MessageId), NewestFirst);
    NewMessagesSinceFacts(fetch, labelIds, lastSyncTime, maxResults);
    return Some(unique);
  }

  /**
   * New messages come newest first, once per id, none older than the
   * watermark, each from the listings; and every listed message not older
   * than the watermark is there, or another with its id is.
   */
  lemma NewMessagesSinceFacts(fetch: FetchRequest -> FetchResult, labelIds: seq<string>, lastSyncTime: int, maxResults: nat)
    ensures var r := NewMessagesSince(fetch, labelIds, lastSyncTime, maxResults);
            && (r.None? <==> Collect(fetch, labelIds, maxResults, Some(lastSyncTime)).None?)
            && (r.Some? ==>
                  && SortedBy(r.value, NewestFirst)
                  && UniqueKeys(r.value, MessageId)
                  && (forall m :: m in r.value ==> m.internalDate >= lastSyncTime)
                  && multiset(r.value) <= multiset(Collect(fetch, labelIds, maxResults, Some(lastSyncTime)).value)
                  && (forall m :: m in r.value ==> Listed(fetch, labelIds, maxResults, Some(lastSyncTime), m))
                  && (forall m :: Listed(fetch, labelIds, maxResults, Some(lastSyncTime), m) && m.internalDate >= lastSyncTime ==>
                        !KeyAbsent(r.value, MessageId, m.id)))
  {
    var c := Collect(fetch, labelIds, maxResults, Some(lastSyncTime));
    if c.Some? {
      var unique := SortBy(DedupBy(c.value, MessageId), NewestFirst);
      UniqueNewestFirst(c.value);
      CollectedNotOlder(fetch, labelIds, maxResults, lastSyncTime);
      forall m | m in unique ensures m.internalDate >= lastSyncTime {
        assert m in multiset(c.value);
      }
      MergedFromListings(fetch, labelIds, maxResults, lastSyncTime);
    }
  }

  /**
   * The merged result of a watermarked collection holds only listed messages,
   * and every listed message not older than the watermark has its id there.
   */
  lemma MergedFromListings(fetch: FetchRequest -> FetchResult, labelIds: seq<string>, maxResults: nat, lastSyncTime: int)
    requires Collect(fetch, labelIds, maxResults, Some(lastSyncTime)).Some?
    ensures var unique := SortBy(DedupBy(Collect(fetch, labelIds, maxResults, Some(lastSyncTime)).value, MessageId), NewestFirst);
            && (forall m :: m in unique ==> Listed(fetch, labelIds, maxResults, Some(lastSyncTime), m))
            && (forall m :: Listed(fetch, labelIds, maxResults, Some(lastSyncTime), m) && m.internalDate >= lastSyncTime ==>
                  !KeyAbsent(unique, MessageId, m.id))
  {
    var all := Collect(fetch, labelIds, maxResults, Some(lastSyncTime)).value;
    var unique := SortBy(DedupBy(all, MessageId), NewestFirst);
    UniqueNewestFirst(all);
    forall m | m in unique ensures Listed(fetch, labelIds, maxResults, Some(lastSyncTime), m) {
      MergedMemberListed(fetch, labelIds, maxResults, lastSyncTime, unique, m);
    }
    forall m | Listed(fetch, labelIds, maxResults, Some(lastSyncTime), m) && m.internalDate >= lastSyncTime
      ensures !KeyAbsent(unique, MessageId, m.id)
    {
      ListedMemberMerged(fetch, labelIds, maxResults, lastSyncTime, unique, m);
    }
  }

  /** A message drawn from a collection was listed. */
  lemma MergedMemberListed(fetch: FetchRequest -> FetchResult, labelIds: seq<string>, maxResults: nat, lastSyncTime: int,
                           merged: seq<GmailMessage>, m: GmailMessage)
    requires Collect(fetch, labelIds, maxResults, Some(lastSyncTime)).Some?
    requires multiset(merged) <= multiset(Collect(fetch, labelIds, maxResults, Some(lastSyncTime)).value) && m in merged
    ensures Listed(fetch, labelIds, maxResults, Some(lastSyncTime), m)
  {
    assert m in multiset(Collect(fetch, labelIds, maxResults, Some(lastSyncTime)).value);
    CollectMembers(fetch, labelIds, maxResults, Some(lastSyncTime), m);
  }

  /** A listed message not older than the watermark has its id in a merge that loses no collected id. */
  lemma ListedMemberMerged(fetch: FetchRequest -> FetchResult, labelIds: seq<string>, maxResults: nat, lastSyncTime: int,
                           merged: seq<GmailMessage>, m: GmailMessage)
    requires Collect(fetch, labelIds, maxResults, Some(lastSyncTime)).Some?
    requires var all := Collect(fetch, labelIds, maxResults, Some(lastSyncTime)).value;
             forall i :: 0 <= i < |all| ==> !KeyAbsent(merged, MessageId, all[i].id)
    requires Listed(fetch, labelIds, maxResults, Some(lastSyncTime), m) && m.internalDate >= lastSyncTime
    ensures !KeyAbsent(merged, MessageId, m.id)
  {
    var all := Collect(fetch, labelIds, maxResults, Some(lastSyncTime)).value;
    CollectMembers(fetch, labelIds, maxResults, Some(lastSyncTime), m);
    var i :| 0 <= i < |all| && all[i] == m;
  }

  /** Once the fetch for `labels[i]` fails, the whole collection fails. */
  lemma {:induction false} CollectAbortsOnFailure(fetch: FetchRequest -> FetchResult, labels: seq<string>, i: nat, maxResults: nat, since: Option<int>)
    requires i < |labels| && GetMessagesByLabel(fetch, labels[i], maxResults, since).FetchFailed?
    ensures Collect(fetch, labels, maxResults, since).None?
  {
    if i < |labels| - 1 {
      CollectAbortsOnFailure(fetch, labels[..|labels| - 1], i, maxResults, since);
    }
  }

  /**
   * `getMessagesByLabels`: every label's messages merged, one per id, the first
   * seen kept, in fetch order. A failed fetch is rethrown as `None`.
   */
  method GetMessagesByLabels(fetch: FetchRequest -> FetchResult, labelIds: seq<string>, maxResults: nat)
    returns (r: Option<seq<GmailMessage>>)
    ensures r.None? <==> Collect(fetch, labelIds, maxResults, None).None?
    ensures r.Some? ==> r.value == DedupBy(Collect(fetch, labelIds, maxResults, None).value, MessageId)
    ensures r.Some? ==> UniqueKeys(r.value, MessageId) && |r.value| <= |labelIds| * maxResults
  {
    var allMessages: seq<GmailMessage> := [];
    for i := 0 to |labelIds|
      invariant Collect(fetch, labelIds[..i], maxResults, None) == Some(allMessages)
    {
      assert labelIds[..i + 1][..i] == labelIds[..i];
      var messages := GetMessagesByLabel(fetch, labelIds[i], maxResults, None);
      if messages.FetchFailed? {
        CollectAbortsOnFailure(fetch, labelIds, i, maxResults, None);
        return None;
      }
      allMessages := allMessages + messages.messages;
    }
    assert labelIds[..|labelIds|] == labelIds;
    CollectedBound(fetch, labelIds, maxResults, None);
    return Some(DedupBy(allMessages, MessageId));
  }
}
