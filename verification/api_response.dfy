/**
 * The response classifier: turns a transport outcome into `Success(body, links)`, `Empty` or
 * `Error(code, message)`, parses the `link` header and derives the next page number.
 *
 * The two regular expressions of `ApiResponse` are modelled by hand-written scanners:
 *   LINK  `<([^>]*)>[\s]*;[\s]*rel="([a-zA-Z0-9]+)"`   (MatchLink, ScanLinks)
 *   PAGE  `\bpage=(\d+)`                                  (PageRunAt, FindPage)
 * Both match deterministically from a given start position, so a left-to-right scanner that
 * tries each start position in turn finds exactly what `Matcher.find` finds.
 */
module Responses {
  import opened Wrappers
  import opened Decimal
  import JavaInt

  const NO_CONTENT: int := 204
  const SERVICE_UNAVAILABLE: int := 503
  const UNKNOWN_ERROR: string := "unknown error"
  const NEXT_LINK: string := "next"

  /** The classified outcome of one remote call. */
  datatype ApiResponse<T> =
    | Success(body: T, links: map<string, string>)
    | Empty
    | Error(code: int, message: string)

  /**
   * What the transport hands over for a completed HTTP exchange: the status code, the decoded
   * body (absent when null), the `link` header, the text of the error body and the status
   * message.
   */
  datatype Response<T> = Response(
    code: int,
    body: Option<T>,
    linkHeader: Option<string>,
    errorBody: Option<string>,
    statusMessage: Option<string>)
  {
    /** A status code in [200, 300) counts as successful. */
    predicate IsSuccessful()
    {
      200 <= code < 300
    }
  }

  /** A failure raised instead of a response; its message may be null. */
  datatype Throwable = Throwable(message: Option<string>)

  /** The message of a failed response: the error body when it has text, else the status message. */
  function ErrorMessage(errorBody: Option<string>, statusMessage: Option<string>): (m: string)
    ensures errorBody.Some? && errorBody.value != "" ==> m == errorBody.value
    ensures (errorBody.None? || errorBody.value == "") && statusMessage.Some? ==> m == statusMessage.value
    ensures (errorBody.None? || errorBody.value == "") && statusMessage.None? ==> m == UNKNOWN_ERROR
  {
    var msg := if errorBody.Some? && errorBody.value != "" then errorBody else statusMessage;
    msg.GetOr(UNKNOWN_ERROR)
  }

  /** Classification of a completed HTTP exchange. */
  function Create<T>(response: Response<T>): (r: ApiResponse<T>)
    ensures r.Success? <==> response.IsSuccessful() && response.body.Some? && response.code != NO_CONTENT
    ensures r.Success? ==> r.body == response.body.value && r.links == LinksOf(response.linkHeader)
    ensures r.Empty? <==> response.IsSuccessful() && (response.body.None? || response.code == NO_CONTENT)
    ensures r.Error? <==> !response.IsSuccessful()
    ensures r.Error? ==> r.code == response.code
    ensures r.Error? ==> r.message == ErrorMessage(response.errorBody, response.statusMessage)
  {
    if response.IsSuccessful() then
      if response.body.None? || response.code == NO_CONTENT then Empty
      else Success(response.body.value, LinksOf(response.linkHeader))
    else
      Error(response.code, ErrorMessage(response.errorBody, response.statusMessage))
  }

  /** Classification of a failure raised by the transport. */
  function CreateFromFailure<T>(error: Throwable): (r: ApiResponse<T>)
    ensures r.Error? && r.code == SERVICE_UNAVAILABLE
    ensures error.message.Some? ==> r.message == error.message.value
    ensures error.message.None? ==> r.message == UNKNOWN_ERROR
  {
    Error(SERVICE_UNAVAILABLE, error.message.GetOr(UNKNOWN_ERROR))
  }

  // ---------------------------------------------------------------------------------------------
  // The link header
  // ---------------------------------------------------------------------------------------------

  /** Java's `\s`: space, tab, line feed, vertical tab, form feed, carriage return. */
  predicate IsSpace(c: char)
  {
    c == ' ' || c == '\t' || c == '\n' || c as int == 0x0B || c as int == 0x0C || c == '\r'
  }

  predicate NotGt(c: char)
  {
    c != '>'
  }

  predicate IsAlnum(c: char)
  {
    'a' <= c <= 'z' || 'A' <= c <= 'Z' || '0' <= c <= '9'
  }

  predicate AllSpaces(s: string)
  {
    forall i :: 0 <= i < |s| ==> IsSpace(s[i])
  }

  predicate IsToken(s: string)
  {
    0 < |s| && forall i :: 0 <= i < |s| ==> IsAlnum(s[i])
  }

  /**
   * One match of the LINK pattern, with the whitespace it skipped around the ';'.
   * Well-formed exactly when the pattern's character classes accept each part.
   */
  datatype LinkMatch = LinkMatch(uri: string, spaceBefore: string, spaceAfter: string, rel: string)
  {
    predicate Valid()
    {
      '>' !in uri && AllSpaces(spaceBefore) && AllSpaces(spaceAfter) && IsToken(rel)
    }

    /** The text the match consumes. */
    function Text(): string
    {
      "<" + uri + TailText(spaceBefore, spaceAfter, rel)
    }
  }

  /** The character classes the header patterns use: `\s`, `[a-zA-Z0-9]`, `[^>]` and `\d`. */
  datatype CharClass = Whitespace | Alnum | NotGreater | Digit

  predicate InClass(c: char, cls: CharClass)
  {
    match cls
    case Whitespace => IsSpace(c)
    case Alnum => IsAlnum(c)
    case NotGreater => NotGt(c)
    case Digit => IsDigit(c)
  }

  /** Length of the longest prefix of `s` whose characters all satisfy `p`. */
  function Span(s: string, p: CharClass): nat
  {
    if |s| == 0 || !InClass(s[0], p) then 0 else 1 + Span(s[1..], p)
  }

  /** The span fits in `s`, every character of it satisfies `p`, and the one after it does not. */
  lemma {:induction false} SpanAll(s: string, p: CharClass)
    ensures Span(s, p) <= |s|
    ensures forall i :: 0 <= i < Span(s, p) ==> InClass(s[i], p)
    ensures Span(s, p) < |s| ==> !InClass(s[Span(s, p)], p)
    decreases |s|
  {
    if |s| > 0 && InClass(s[0], p) {
      SpanAll(s[1..], p);
      assert forall i :: 1 <= i < Span(s, p) ==> s[i] == s[1..][i - 1];
    }
  }

  /** The text matched after the URI: `>`, spaces, `;`, spaces, `rel="`, the token, `"`. */
  function TailText(spaceBefore: string, spaceAfter: string, rel: string): string
  {
    ">" + spaceBefore + ";" + RelText(spaceAfter, rel)
  }

  /** The text matched from the second run of spaces on: spaces, `rel="`, the token, `"`. */
  function RelText(spaceAfter: string, rel: string): string
  {
    spaceAfter + "rel=\"" + rel + "\""
  }

  /** The longest run of whitespace at the front of `s` is all whitespace. */
  lemma SpacesOfSpan(s: string)
    ensures Span(s, Whitespace) <= |s| && AllSpaces(s[..Span(s, Whitespace)])
  {
    var n := Span(s, Whitespace);
    SpanAll(s, Whitespace);
    assert forall i :: 0 <= i < n ==> s[..n][i] == s[i];
  }

  /** The longest alphanumeric run at the front of `s` is a token when it is not empty. */
  lemma TokenOfSpan(s: string)
    requires Span(s, Alnum) > 0
    ensures Span(s, Alnum) <= |s| && IsToken(s[..Span(s, Alnum)])
  {
    var n := Span(s, Alnum);
    SpanAll(s, Alnum);
    assert forall i :: 0 <= i < n ==> s[..n][i] == s[i];
  }

  /** The five characters `rel="` start at position `w` of `t`. */
  predicate KeywordAt(t: string, w: nat)
    requires w + 5 <= |t|
  {
    t[w] == 'r' && t[w + 1] == 'e' && t[w + 2] == 'l' && t[w + 3] == '=' && t[w + 4] == '"'
  }

  /** `[\s]*rel="([a-zA-Z0-9]+)"` anchored at the start of `t`: the spaces and the token. */
  function MatchRel(t: string): Option<(string, string)>
  {
    var w := Span(t, Whitespace);
    if |t| < w + 5 || !KeywordAt(t, w) then None
    else
      var a := Span(t[w + 5..], Alnum);
      if a == 0 || w + 5 + a >= |t| || t[w + 5 + a] != '"' then None
      else Some((t[..w], t[w + 5..w + 5 + a]))
  }

  /** What `MatchRel` accepts is whitespace and a token, and its text sits at the front of `t`. */
  lemma MatchRelSound(t: string)
    ensures var r := MatchRel(t);
      r.Some? ==> AllSpaces(r.value.0) && IsToken(r.value.1) && RelText(r.value.0, r.value.1) <= t
  {
    var w := Span(t, Whitespace);
    if MatchRel(t).Some? {
      assert w + 5 <= |t| && KeywordAt(t, w);
      var a := Span(t[w + 5..], Alnum);
      assert a > 0 && w + 5 + a < |t| && t[w + 5 + a] == '"';
      RelSound(t, w, a);
    }
  }

  /** What `MatchRel` accepts is well formed and sits at the front of the text. */
  lemma RelSound(t: string, w: nat, a: nat)
    requires w == Span(t, Whitespace) && w + 6 + a <= |t|
    requires KeywordAt(t, w) && a == Span(t[w + 5..], Alnum) && a > 0 && t[w + 5 + a] == '"'
    ensures AllSpaces(t[..w]) && IsToken(t[w + 5..w + 5 + a])
    ensures RelText(t[..w], t[w + 5..w + 5 + a]) <= t
  {
    SpacesOfSpan(t);
    TokenOfSpan(t[w + 5..]);
    assert t[w + 5..][..a] == t[w + 5..w + 5 + a];
    RelPrefix(t, w, a);
  }

  lemma RelPrefix(t: string, w: nat, a: nat)
    requires w + 6 + a <= |t| && KeywordAt(t, w) && t[w + 5 + a] == '"'
    ensures RelText(t[..w], t[w + 5..w + 5 + a]) == t[..w + 6 + a]
  {
    var e := w + 5 + a;
    assert t[w..w + 5] == "rel=\"";
    assert t[e..e + 1] == "\"";
    PrefixSplit(t, w, w + 5);
    PrefixSplit(t, w + 5, e);
    PrefixSplit(t, e, e + 1);
  }

  /** A prefix is the shorter prefix followed by the slice between them. */
  lemma PrefixSplit(t: string, j: nat, k: nat)
    requires j <= k <= |t|
    ensures t[..k] == t[..j] + t[j..k]
  {
  }

  /** Gluing a prefix of `t` to a prefix of the rest of `t` gives a prefix of `t`. */
  lemma PrefixGlue(a: string, x: string, t: string)
    requires a <= t && x <= t[|a|..]
    ensures a + x <= t
  {
    assert (a + x) == t[..|a| + |x|];
  }

  lemma TailPrefix(t: string, w: nat, spaceAfter: string, rel: string)
    requires 2 + w <= |t| && t[0] == '>' && t[1 + w] == ';'
    requires RelText(spaceAfter, rel) <= t[2 + w..]
    requires w == Span(t[1..], Whitespace)
    ensures TailText(t[1..1 + w], spaceAfter, rel) <= t
    ensures AllSpaces(t[1..1 + w])
  {
    SpacesOfSpan(t[1..]);
    assert t[1..][..w] == t[1..1 + w];
    var head := ">" + t[1..1 + w] + ";";
    assert head == t[..2 + w];
    var x := RelText(spaceAfter, rel);
    PrefixGlue(head, x, t);
    assert TailText(t[1..1 + w], spaceAfter, rel) == head + x;
  }

  /** `>[\s]*;` followed by `MatchRel`, anchored at the start of `t`. */
  function MatchTail(t: string): Option<(string, string, string)>
  {
    if |t| == 0 || t[0] != '>' then None
    else
      var w := Span(t[1..], Whitespace);
      if 1 + w >= |t| || t[1 + w] != ';' then None
      else
        var rel := MatchRel(t[2 + w..]);
        if rel.None? then None
        else Some((t[1..1 + w], rel.value.0, rel.value.1))
  }

  /** What `MatchTail` accepts is well formed, and its text sits at the front of `t`. */
  lemma MatchTailSound(t: string)
    ensures var r := MatchTail(t);
      r.Some? ==> AllSpaces(r.value.0) && AllSpaces(r.value.1) && IsToken(r.value.2)
                  && TailText(r.value.0, r.value.1, r.value.2) <= t
  {
    if MatchTail(t).Some? {
      var w := Span(t[1..], Whitespace);
      var rel := MatchRel(t[2 + w..]);
      MatchRelSound(t[2 + w..]);
      TailPrefix(t, w, rel.value.0, rel.value.1);
    }
  }

  lemma LinkSound(s: string, u: nat, m: LinkMatch)
    requires 1 + u <= |s| && s[0] == '<' && m.uri == s[1..1 + u]
    requires forall i :: 0 <= i < u ==> NotGt(s[1..][i])
    requires AllSpaces(m.spaceBefore) && AllSpaces(m.spaceAfter) && IsToken(m.rel)
    requires TailText(m.spaceBefore, m.spaceAfter, m.rel) <= s[1 + u..]
    ensures m.Valid() && m.Text() <= s
  {
    assert forall i :: 0 <= i < u ==> m.uri[i] == s[1..][i];
    var head := "<" + m.uri;
    assert head == s[..1 + u];
    var x := TailText(m.spaceBefore, m.spaceAfter, m.rel);
    PrefixGlue(head, x, s);
    assert m.Text() == head + x;
  }

  /** The LINK pattern anchored at the start of `s`: the match, if the pattern matches there. */
  function MatchLink(s: string): (r: Option<LinkMatch>)
    ensures r.Some? ==> r.value.Valid() && r.value.Text() <= s
  {
    if |s| == 0 || s[0] != '<' then None
    else
      var u := Span(s[1..], NotGreater);
      SpanAll(s[1..], NotGreater);
      var tail := MatchTail(s[1 + u..]);
      MatchTailSound(s[1 + u..]);
      if tail.None? then None
      else
        var m := LinkMatch(s[1..1 + u], tail.value.0, tail.value.1, tail.value.2);
        LinkSound(s, u, m);
        Some(m)
  }

  /** Every entry is a non-empty alphanumeric relation name bound to a text without '>'. */
  ghost predicate WellFormedLinks(links: map<string, string>)
  {
    forall k :: k in links ==> IsToken(k) && '>' !in links[k]
  }

  /** Binding a well-formed match keeps a link map well formed. */
  lemma BindMatch(acc: map<string, string>, m: LinkMatch)
    requires m.Valid()
    ensures WellFormedLinks(acc) ==> WellFormedLinks(acc[m.rel := m.uri])
  {
  }

  /**
   * Repeated `Matcher.find` over the LINK pattern: at each start position the pattern either
   * matches, the relation is bound to the URI (overwriting an earlier binding) and the scan
   * resumes after the match, or the scan moves on by one character.
   */
  function ScanLinks(s: string, acc: map<string, string>): (r: map<string, string>)
    ensures WellFormedLinks(acc) ==> WellFormedLinks(r)
    ensures acc.Keys <= r.Keys
    decreases |s|
  {
    if |s| == 0 then acc
    else
      var found := MatchLink(s);
      if found.None? then ScanLinks(s[1..], acc)
      else
        var m := found.value;
        var n := |m.Text()|;
        BindMatch(acc, m);
        ScanLinks(s[n..], acc[m.rel := m.uri])
  }

  /** The relation-to-URI map of a `link` header. */
  function ExtractLinks(header: string): (r: map<string, string>)
    ensures WellFormedLinks(r)
  {
    ScanLinks(header, map[])
  }

  /** An absent header yields no links. */
  function LinksOf(header: Option<string>): (r: map<string, string>)
    ensures header.None? ==> r == map[]
    ensures WellFormedLinks(r)
  {
    match header
    case None => map[]
    case Some(h) => ExtractLinks(h)
  }

  lemma {:induction false} SpanOfPrefix(x: string, y: string, p: CharClass)
    requires forall i :: 0 <= i < |x| ==> InClass(x[i], p)
    requires |y| == 0 || !InClass(y[0], p)
    ensures Span(x + y, p) == |x|
    decreases |x|
  {
    if |x| > 0 {
      assert (x + y)[1..] == x[1..] + y;
      SpanOfPrefix(x[1..], y, p);
    }
  }

  lemma MatchRelComplete(spaceAfter: string, rel: string, rest: string)
    requires AllSpaces(spaceAfter) && IsToken(rel)
    ensures MatchRel(RelText(spaceAfter, rel) + rest) == Some((spaceAfter, rel))
  {
    var t := RelText(spaceAfter, rel) + rest;
    var w, a := |spaceAfter|, |rel|;
    RelTextLayout(spaceAfter, rel, rest);
    SpanAt(t, Whitespace, w);
    var u := t[w + 5..];
    assert forall j :: 0 <= j < a ==> u[j] == rel[j];
    SpanAt(u, Alnum, a);
    MatchRelAt(t, w, a);
    assert t[..w] == spaceAfter;
    assert t[w + 5..w + 5 + a] == rel;
  }

  /** `MatchRel` accepts exactly the spaces and token its scan finds, when the clause is complete. */
  lemma MatchRelAt(t: string, w: nat, a: nat)
    requires w == Span(t, Whitespace) && w + 6 + a <= |t| && KeywordAt(t, w)
    requires a == Span(t[w + 5..], Alnum) && a > 0 && t[w + 5 + a] == '"'
    ensures MatchRel(t) == Some((t[..w], t[w + 5..w + 5 + a]))
  {
  }

  /** Where each part of a `rel` clause sits in its text. */
  lemma RelTextLayout(spaceAfter: string, rel: string, rest: string)
    ensures var t := RelText(spaceAfter, rel) + rest;
      var w, a := |spaceAfter|, |rel|;
      && |t| == w + 6 + a + |rest|
      && (forall i :: 0 <= i < w ==> t[i] == spaceAfter[i])
      && t[w] == 'r' && t[w + 1] == 'e' && t[w + 2] == 'l' && t[w + 3] == '=' && t[w + 4] == '"'
      && (forall j :: 0 <= j < a ==> t[w + 5 + j] == rel[j])
      && t[w + 5 + a] == '"'
  {
  }

  /** A run of `n` characters satisfying `p`, ended by the text or by one that does not, is the span. */
  lemma {:induction false} SpanAt(s: string, p: CharClass, n: nat)
    requires n <= |s| && (forall i :: 0 <= i < n ==> InClass(s[i], p)) && (n == |s| || !InClass(s[n], p))
    ensures Span(s, p) == n
    decreases n
  {
    if n > 0 {
      SpanAt(s[1..], p, n - 1);
    }
  }

  lemma MatchTailUnfold(t: string, w: nat, spaceAfter: string, rel: string)
    requires 1 + w < |t| && t[0] == '>' && t[1 + w] == ';'
    requires Span(t[1..], Whitespace) == w
    requires MatchRel(t[2 + w..]) == Some((spaceAfter, rel))
    ensures MatchTail(t) == Some((t[1..1 + w], spaceAfter, rel))
  {
  }

  lemma TailShape(spaceBefore: string, y: string)
    requires AllSpaces(spaceBefore)
    ensures var t := ">" + spaceBefore + ";" + y;
      && t[0] == '>' && t[1 + |spaceBefore|] == ';' && t[1..1 + |spaceBefore|] == spaceBefore
      && t[2 + |spaceBefore|..] == y && Span(t[1..], Whitespace) == |spaceBefore|
  {
    var t := ">" + spaceBefore + ";" + y;
    assert t[1..] == spaceBefore + (";" + y);
    SpanOfPrefix(spaceBefore, ";" + y, Whitespace);
  }

  lemma MatchTailComplete(spaceBefore: string, spaceAfter: string, rel: string, rest: string)
    requires AllSpaces(spaceBefore) && AllSpaces(spaceAfter) && IsToken(rel)
    ensures MatchTail(TailText(spaceBefore, spaceAfter, rel) + rest) == Some((spaceBefore, spaceAfter, rel))
  {
    var y := RelText(spaceAfter, rel) + rest;
    var t := TailText(spaceBefore, spaceAfter, rel) + rest;
    assert t == ">" + spaceBefore + ";" + y;
    TailShape(spaceBefore, y);
    MatchRelComplete(spaceAfter, rel, rest);
    MatchTailUnfold(t, |spaceBefore|, spaceAfter, rel);
  }

  /** The LINK pattern matches at the start of any text that begins with a well-formed match. */
  lemma MatchLinkComplete(m: LinkMatch, rest: string)
    requires m.Valid()
    ensures MatchLink(m.Text() + rest) == Some(m)
  {
    var s := m.Text() + rest;
    var tail := TailText(m.spaceBefore, m.spaceAfter, m.rel) + rest;
    assert s == "<" + m.uri + tail;
    assert s[1..] == m.uri + tail;
    SpanOfPrefix(m.uri, tail, NotGreater);
    assert s[1 + |m.uri|..] == tail;
    MatchTailComplete(m.spaceBefore, m.spaceAfter, m.rel, rest);
    assert s[1..1 + |m.uri|] == m.uri;
  }

  /** Text without '<' can never start a match, so it adds nothing to the link map. */
  lemma {:induction false} ScanSkipsFiller(filler: string, rest: string, acc: map<string, string>)
    requires '<' !in filler
    ensures ScanLinks(filler + rest, acc) == ScanLinks(rest, acc)
    decreases |filler|
  {
    if |filler| > 0 {
      assert (filler + rest)[0] == filler[0];
      assert (filler + rest)[1..] == filler[1..] + rest;
      ScanSkipsFiller(filler[1..], rest, acc);
    } else {
      assert filler + rest == rest;
    }
  }

  /** A well-formed match at the front binds its relation, then scanning resumes after it. */
  lemma ScanTakesMatch(m: LinkMatch, rest: string, acc: map<string, string>)
    requires m.Valid()
    ensures ScanLinks(m.Text() + rest, acc) == ScanLinks(rest, acc[m.rel := m.uri])
  {
    MatchLinkComplete(m, rest);
    assert (m.Text() + rest)[|m.Text()|..] == rest;
  }

  /** A piece of a header: text that cannot start a match, followed by one well-formed match. */
  datatype Segment = Segment(filler: string, link: LinkMatch)
  {
    predicate Valid()
    {
      '<' !in filler && link.Valid()
    }
  }

  function Render(segments: seq<Segment>): string
  {
    if |segments| == 0 then ""
    else segments[0].filler + segments[0].link.Text() + Render(segments[1..])
  }

  /** The bindings in header order, a later relation overwriting an earlier one. */
  function Bind(segments: seq<Segment>, acc: map<string, string>): map<string, string>
  {
    if |segments| == 0 then acc
    else Bind(segments[1..], acc[segments[0].link.rel := segments[0].link.uri])
  }

  /**
   * A header made of well-formed links separated by text without '<' yields exactly the
   * bindings of those links, in order, a later duplicate relation winning.
   */
  lemma {:induction false} ExtractRenderedHeader(segments: seq<Segment>, tail: string, acc: map<string, string>)
    requires forall i :: 0 <= i < |segments| ==> segments[i].Valid()
    requires '<' !in tail
    ensures ScanLinks(Render(segments) + tail, acc) == Bind(segments, acc)
    decreases |segments|
  {
    if |segments| == 0 {
      ScanSkipsFiller(tail, "", acc);
      assert Render(segments) + tail == tail + "";
    } else {
      var g := segments[0];
      assert g.Valid();
      var rest := Render(segments[1..]) + tail;
      assert Render(segments) + tail == g.filler + (g.link.Text() + rest);
      ScanSkipsFiller(g.filler, g.link.Text() + rest, acc);
      ScanTakesMatch(g.link, rest, acc);
      ExtractRenderedHeader(segments[1..], tail, acc[g.link.rel := g.link.uri]);
    }
  }

  // ---------------------------------------------------------------------------------------------
  // The next page
  // ---------------------------------------------------------------------------------------------

  /** Java's word characters for `\b`, restricted to ASCII. */
  predicate IsWordChar(c: char)
  {
    IsAlnum(c) || c == '_'
  }

  /** The PAGE pattern matches at position `i` of `s`: a word boundary, "page=", a digit. */
  predicate PageRunAt(s: string, i: int)
  {
    0 <= i && i + 6 <= |s| && s[i..i + 5] == "page=" && IsDigit(s[i + 5])
    && (i == 0 || !IsWordChar(s[i - 1]))
  }

  /**
   * The greedy digit run the PAGE pattern captures when it matches at `i`: the digits right after
   * "page=", up to the first character that is not a digit or the end of `s`.
   */
  function DigitRunAt(s: string, i: nat): (d: string)
    requires PageRunAt(s, i)
    ensures 0 < |d| && AllDigits(d)
    ensures i + 5 + |d| <= |s| && d == s[i + 5..i + 5 + |d|]
    ensures i + 5 + |d| == |s| || !IsDigit(s[i + 5 + |d|])
  {
    var n := Span(s[i + 5..], Digit);
    SpanAll(s[i + 5..], Digit);
    assert s[i + 5..][0] == s[i + 5];
    var digits, rest := s[i + 5..i + 5 + n], s[i + 5..];
    assert forall k :: 0 <= k < n ==> digits[k] == rest[k];
    assert n < |rest| ==> rest[n] == s[i + 5 + n];
    digits
  }

  /** `Matcher.find` for the PAGE pattern: the first position at or after `i` where it matches. */
  function FindPage(s: string, i: nat): (r: Option<nat>)
    requires i <= |s|
    ensures r.Some? ==> i <= r.value && PageRunAt(s, r.value)
    ensures r.Some? ==> forall k :: i <= k < r.value ==> !PageRunAt(s, k)
    ensures r.None? ==> forall k :: i <= k ==> !PageRunAt(s, k)
    decreases |s| - i
  {
    if PageRunAt(s, i) then Some(i)
    else if i == |s| then None
    else FindPage(s, i + 1)
  }

  /** `Integer.parseInt` on a digit string: absent when the value does not fit an `Int`. */
  function ParseInt32(digits: string): (r: Option<int>)
    requires AllDigits(digits)
    ensures r.Some? <==> Value(digits) <= JavaInt.INT_MAX
    ensures r.Some? ==> r.value == Value(digits)
  {
    var v := Value(digits);
    if v <= JavaInt.INT_MAX then Some(v) else None
  }

  /** Position `i` holds the first PAGE match of `s`. */
  predicate FirstPageRun(s: string, i: int)
  {
    PageRunAt(s, i) && forall k :: 0 <= k < i ==> !PageRunAt(s, k)
  }

  /**
   * The `nextPage` of a success: the digits of the first PAGE match in the `next` link, when
   * their value fits an `Int`; nothing when there is no `next` link, no match, or an overflow.
   */
  function NextPage(links: map<string, string>): (r: Option<int>)
    ensures NEXT_LINK !in links ==> r.None?
    ensures NEXT_LINK in links && (forall k :: !PageRunAt(links[NEXT_LINK], k)) ==> r.None?
    ensures NEXT_LINK in links ==> forall i: nat :: FirstPageRun(links[NEXT_LINK], i) ==>
      var v := Value(DigitRunAt(links[NEXT_LINK], i));
      (r.Some? <==> v <= JavaInt.INT_MAX) && (r.Some? ==> r.value == v)
    ensures r.Some? ==> 0 <= r.value <= JavaInt.INT_MAX
  {
    if NEXT_LINK !in links then None
    else
      var next := links[NEXT_LINK];
      match FindPage(next, 0)
      case None => None
      case Some(i) => ParseInt32(DigitRunAt(next, i))
  }

  /** No PAGE match can start inside a prefix that holds no '='. */
  lemma NoPageInPrefix(prefix: string, rest: string, k: nat)
    requires '=' !in prefix && k < |prefix|
    ensures !PageRunAt(prefix + "page=" + rest, k)
  {
    var s := prefix + "page=" + rest;
    if k + 4 < |prefix| {
      assert s[k + 4] == prefix[k + 4];
    } else {
      assert s[k + 4] == "page="[k + 4 - |prefix|];
    }
    if k + 6 <= |s| {
      assert s[k..k + 5][4] == s[k + 4] != '=';
    }
  }

  /**
   * A `next` link of the shape prefix + "page=" + n + suffix, where no match starts inside the
   * prefix, the prefix ends at a word boundary and the suffix does not continue the digits, has
   * page n when n fits an `Int`, and no page otherwise.
   */
  lemma NextPageOfLink(links: map<string, string>, prefix: string, n: nat, suffix: string)
    requires NEXT_LINK in links
    requires links[NEXT_LINK] == prefix + "page=" + NatToString(n) + suffix
    requires forall k :: 0 <= k < |prefix| ==> !PageRunAt(links[NEXT_LINK], k)
    requires |prefix| == 0 || !IsWordChar(prefix[|prefix| - 1])
    requires |suffix| == 0 || !IsDigit(suffix[0])
    ensures n <= JavaInt.INT_MAX ==> NextPage(links) == Some(n)
    ensures n > JavaInt.INT_MAX ==> NextPage(links) == None
  {
    var digits := NatToString(n);
    var s := links[NEXT_LINK];
    var j := |prefix|;
    assert s == prefix + "page=" + (digits + suffix);
    assert s[j..j + 5] == "page=";
    assert s[j + 5..] == digits + suffix;
    assert s[j + 5] == digits[0];
    assert j > 0 ==> s[j - 1] == prefix[j - 1];
    assert FirstPageRun(s, j);
    SpanOfPrefix(digits, suffix, Digit);
    assert DigitRunAt(s, j) == digits;
    ValueOfNatToString(n);
  }

  const EXAMPLE_LINK: LinkMatch := LinkMatch("http://x/y?page=3", "", " ", "next")

  lemma ExampleLinkValid()
    ensures EXAMPLE_LINK.Valid()
  {
    assert forall i :: 0 <= i < 4 ==> IsAlnum("next"[i]);
    var uri := EXAMPLE_LINK.uri;
    assert forall i :: 0 <= i < |uri| ==> uri[i] != '>';
  }

  lemma ExampleLinkText()
    ensures EXAMPLE_LINK.Text() + "" == "<http://x/y?page=3>; rel=\"next\""
  {
    ExampleTailText();
    assert "<" + "http://x/y?page=3" + ">; rel=\"next\"" == "<http://x/y?page=3>; rel=\"next\"";
  }

  lemma ExampleTailText()
    ensures TailText("", " ", "next") == ">; rel=\"next\""
  {
    ExampleRelText();
    assert ">" + "" + ";" == ">;";
  }

  lemma ExampleRelText()
    ensures RelText(" ", "next") == " rel=\"next\""
  {
    assert " " + "rel=\"" == " rel=\"";
    assert " rel=\"" + "next" == " rel=\"next";
  }

  /** The example of a GitHub-style header: `<http://x/y?page=3>; rel="next"`. */
  lemma ExampleHeaderLinks()
    ensures ExtractLinks("<http://x/y?page=3>; rel=\"next\"") == map["next" := "http://x/y?page=3"]
  {
    ExampleLinkValid();
    ExampleLinkText();
    ScanTakesMatch(EXAMPLE_LINK, "", map[]);
  }

  /** ... whose `next` link has page 3. */
  lemma ExampleHeaderNextPage()
    ensures NextPage(map["next" := "http://x/y?page=3"]) == Some(3)
  {
    assert NatToString(3) == "3";
    var prefix := "http://x/y?";
    assert "http://x/y?page=3" == prefix + "page=" + NatToString(3) + "";
    assert '=' !in prefix;
    forall k | 0 <= k < |prefix|
      ensures !PageRunAt(prefix + "page=" + "3", k)
    {
      NoPageInPrefix(prefix, "3", k);
    }
    NextPageOfLink(map["next" := "http://x/y?page=3"], "http://x/y?", 3, "");
  }
}
