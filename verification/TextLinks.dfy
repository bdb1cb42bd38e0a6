/**
 The linkifier and escaper that turn a raw message body into the HTML the
 transcript renders (app/text_links.cpp).

 Specification functions come first, then the three methods that work the way
 the source does, then what the result promises: the output lies in a small
 grammar, parses back to exactly the raw text, and links every URL.
 */
module TextLinks {
  import opened Wrappers

  // ---------------------------------------------------------------- characters

  /** U+017F, which Unicode caseless matching identifies with s and S. */
  const LONG_S: char := '\U{017F}'

  /** What \s matches in a pattern compiled without Unicode properties. */
  predicate IsSpace(c: char) {
    c == ' ' || c == '\t' || c == '\n' || c == '\U{000B}' || c == '\U{000C}' || c == '\r'
  }

  predicate IsUrlChar(c: char) {
    !IsSpace(c) && c != '<' && c != '>' && c != '"' && c != '\'' && c != '`'
  }

  predicate IsSentencePunctuation(c: char) {
    c == '.' || c == ',' || c == ';' || c == ':' || c == '!' || c == '?' || c == '"' || c == '\''
  }

  predicate IsCloser(c: char) {
    c == ')' || c == ']'
  }

  function Opener(closer: char): char {
    if closer == ')' then '(' else '['
  }

  // ---------------------------------------------------------------- URL pattern

  predicate HttpAt(s: string, i: nat) {
    && i + 4 <= |s|
    && (s[i] == 'h' || s[i] == 'H')
    && (s[i + 1] == 't' || s[i + 1] == 'T')
    && (s[i + 2] == 't' || s[i + 2] == 'T')
    && (s[i + 3] == 'p' || s[i + 3] == 'P')
  }

  predicate IsCaselessS(c: char) {
    c == 's' || c == 'S' || c == LONG_S
  }

  predicate SlashesAt(s: string, i: nat) {
    i + 3 <= |s| && s[i] == ':' && s[i + 1] == '/' && s[i + 2] == '/'
  }

  /** Length of the scheme and the two slashes at position i, or 0. */
  function SchemeAt(s: string, i: nat): nat {
    if !HttpAt(s, i) then 0
    else if SlashesAt(s, i + 4) then 7
    else if i + 4 < |s| && IsCaselessS(s[i + 4]) && SlashesAt(s, i + 5) then 8
    else 0
  }

  /** Length of the run of URL characters that starts at position i. */
  function UrlRun(s: string, i: nat): (k: nat)
    ensures i <= |s| ==> i + k <= |s|
    ensures forall j :: i <= j < i + k && j < |s| ==> IsUrlChar(s[j])
    decreases |s| - i
  {
    if i >= |s| || !IsUrlChar(s[i]) then 0 else 1 + UrlRun(s, i + 1)
  }

  /** Length of the greedy match anchored at position i, or 0 if the pattern does not match there. */
  function MatchAt(s: string, i: nat): (k: nat)
    requires i <= |s|
    ensures i + k <= |s|
  {
    var scheme := SchemeAt(s, i);
    if scheme == 0 || UrlRun(s, i + scheme) == 0 then 0 else scheme + UrlRun(s, i + scheme)
  }

  predicate NoMatch(s: string, from: nat, to: nat)
    requires from <= to <= |s|
    decreases |s| - from
  {
    from == to || (MatchAt(s, from) == 0 && NoMatch(s, from + 1, to))
  }

  datatype Match = Match(start: nat, length: nat)

  /** The leftmost match at or after a position. */
  function FindMatch(s: string, from: nat): (m: Option<Match>)
    requires from <= |s|
    ensures m.Some? ==>
              && from <= m.value.start < |s|
              && 0 < m.value.length == MatchAt(s, m.value.start)
              && NoMatch(s, from, m.value.start)
    ensures m.None? ==> NoMatch(s, from, |s|)
    decreases |s| - from
  {
    if from == |s| then None
    else if MatchAt(s, from) > 0 then Some(Match(from, MatchAt(s, from)))
    else FindMatch(s, from + 1)
  }

  // ---------------------------------------------------------------- trimming

  /** Occurrences of c among the n characters from position a. */
  function Count(s: string, a: nat, n: nat, c: char): nat
    requires a + n <= |s|
  {
    if n == 0 then 0 else Count(s, a, n - 1, c) + if s[a + n - 1] == c then 1 else 0
  }

  /**
   The n characters from position a may be a URL: they end neither on sentence punctuation nor on an
   unbalanced closing bracket.
   */
  predicate MayEnd(s: string, a: nat, n: nat)
    requires a + n <= |s|
  {
    n == 0 ||
    var last := s[a + n - 1];
    if IsCloser(last) then Count(s, a, n, last) <= Count(s, a, n, Opener(last))
    else !IsSentencePunctuation(last)
  }

  /** The most of the n characters from position a that may be a URL. */
  function TrimLength(s: string, a: nat, n: nat): (k: nat)
    requires a + n <= |s|
    ensures k <= n
  {
    if MayEnd(s, a, n) then n else TrimLength(s, a, n - 1)
  }

  function Trimmed(s: string): string {
    s[..TrimLength(s, 0, |s|)]
  }

  lemma {:induction false} CountSlice(s: string, a: nat, b: nat, n: nat, c: char)
    requires a + n <= b <= |s|
    ensures Count(s[a..b], 0, n, c) == Count(s, a, n, c)
  {
    if n > 0 { CountSlice(s, a, b, n - 1, c); }
  }

  lemma MayEndSlice(s: string, a: nat, b: nat, n: nat)
    requires a + n <= b <= |s|
    ensures MayEnd(s[a..b], 0, n) == MayEnd(s, a, n)
  {
    if n > 0 {
      CountSlice(s, a, b, n, s[a + n - 1]);
      CountSlice(s, a, b, n, Opener(s[a + n - 1]));
    }
  }

  lemma {:induction false} TrimLengthSlice(s: string, a: nat, b: nat, n: nat)
    requires a + n <= b <= |s|
    ensures TrimLength(s[a..b], 0, n) == TrimLength(s, a, n)
  {
    MayEndSlice(s, a, b, n);
    if !MayEnd(s, a, n) { TrimLengthSlice(s, a, b, n - 1); }
  }

  /** The loop of trimTrailing: the result is the longest prefix that may be a URL. */
  method TrimTrailing(url: string) returns (t: string)
    ensures t == Trimmed(url)
  {
    t := url;
    while t != []
      invariant |t| <= |url| && t == url[0..|t|]
      invariant TrimLength(url, 0, |t|) == TrimLength(url, 0, |url|)
      decreases |t|
    {
      var last := t[|t| - 1];
      MayEndSlice(url, 0, |t|, |t|);
      if last == ')' || last == ']' {
        var opener := if last == ')' then '(' else '[';
        if Count(t, 0, |t|, opener) < Count(t, 0, |t|, last) {
          t := t[..|t| - 1];
          continue;
        }
        break;
      }
      if last in ".,;:!?\"'" {
        t := t[..|t| - 1];
        continue;
      }
      break;
    }
    MayEndSlice(url, 0, |t|, |t|);
  }

  lemma {:induction false} TrimLengthIsLongest(s: string, a: nat, n: nat)
    requires a + n <= |s|
    ensures MayEnd(s, a, TrimLength(s, a, n))
    ensures forall i :: TrimLength(s, a, n) < i <= n ==> !MayEnd(s, a, i)
  {
    if !MayEnd(s, a, n) { TrimLengthIsLongest(s, a, n - 1); }
  }

  /** The result of trimming is exactly the longest prefix that may be a URL. */
  lemma TrimmedIsLongest(s: string, t: string)
    ensures t == Trimmed(s) <==>
            && t <= s && MayEnd(s, 0, |t|)
            && forall n :: |t| < n <= |s| ==> !MayEnd(s, 0, n)
  {
    TrimLengthIsLongest(s, 0, |s|);
  }

  lemma {:induction false} CountIsMultiplicity(s: string, n: nat, c: char)
    requires n <= |s|
    ensures Count(s, 0, n, c) == multiset(s[..n])[c]
  {
    if n > 0 {
      CountIsMultiplicity(s, n - 1, c);
      assert s[..n] == s[..n - 1] + [s[n - 1]];
    }
  }

  /** What may be a URL, spelled out: no sentence punctuation at the end, and no closing bracket that outnumbers its opener. */
  lemma MayEndExactly(t: string)
    requires t != ""
    ensures var last := t[|t| - 1];
            MayEnd(t, 0, |t|) <==>
              && last !in ".,;:!?\"'"
              && (last == ')' ==> multiset(t)[')'] <= multiset(t)['('])
              && (last == ']' ==> multiset(t)[']'] <= multiset(t)['['])
  {
    assert t[..|t|] == t;
    CountIsMultiplicity(t, |t|, t[|t| - 1]);
    CountIsMultiplicity(t, |t|, Opener(t[|t| - 1]));
  }

  /** Trimming twice is trimming once. */
  lemma TrimmingIsIdempotent(s: string)
    ensures Trimmed(Trimmed(s)) == Trimmed(s)
  {
    var k := TrimLength(s, 0, |s|);
    assert s[..k] == s[0..k];
    TrimLengthIsLongest(s, 0, |s|);
    TrimLengthSlice(s, 0, k, k);
  }

  // ---------------------------------------------------------------- escaping

  function EscapeChar(c: char): string {
    match c
    case '&' => "&amp;"
    case '<' => "&lt;"
    case '>' => "&gt;"
    case '"' => "&quot;"
    case '\'' => "&#39;"
    case '\n' => "<br>"
    case _ => [c]
  }

  /** The characters of s from position a on, each printed by f. */
  function Printed(f: char -> string, s: string, a: nat): string
    requires a <= |s|
    decreases |s| - a
  {
    if a == |s| then "" else f(s[a]) + Printed(f, s, a + 1)
  }

  function Escaped(s: string): string {
    Printed(EscapeChar, s, 0)
  }

  method Escape(text: string) returns (out: string)
    ensures out == Escaped(text)
  {
    out := "";
    for i := 0 to |text|
      invariant out + Printed(EscapeChar, text, i) == Escaped(text)
    {
      Assoc(out, EscapeChar(text[i]), Printed(EscapeChar, text, i + 1));
      match text[i] {
        case '&' => out := out + "&amp;";
        case '<' => out := out + "&lt;";
        case '>' => out := out + "&gt;";
        case '"' => out := out + "&quot;";
        case '\'' => out := out + "&#39;";
        case '\n' => out := out + "<br>";
        case c => out := out + [c];
      }
    }
  }

  lemma Assoc(a: string, b: string, c: string)
    ensures a + (b + c) == a + b + c
  {
  }

  // ---------------------------------------------------------------- the transcript nodes

  /** What a reader sees: single characters and links. */
  datatype Node = Ch(c: char) | Link(url: string)

  datatype Nodes = Nil | Cons(head: Node, tail: Nodes)

  /** The characters from position a up to b, then the rest. */
  function CharsThen(s: string, a: nat, b: nat, rest: Nodes): Nodes
    requires a <= b <= |s|
    decreases |s| - a
  {
    if a == b then rest else Cons(Ch(s[a]), CharsThen(s, a + 1, b, rest))
  }

  /** A list of nodes as text, characters printed by f and links by g. */
  function Show(f: char -> string, g: string -> string, ns: Nodes): string {
    match ns
    case Nil => ""
    case Cons(Ch(c), rest) => f(c) + Show(f, g, rest)
    case Cons(Link(url), rest) => g(url) + Show(f, g, rest)
  }

  /** The raw text a list of nodes stands for. */
  function Source(ns: Nodes): string {
    Show(PlainChar, PlainUrl, ns)
  }

  function PlainChar(c: char): string {
    [c]
  }

  function PlainUrl(url: string): string {
    url
  }

  function Width(n: Node): nat {
    match n
    case Ch(_) => 1
    case Link(url) => |url|
  }

  /** The anchor template with its two places filled in. */
  function Anchor(safeUrl: string): string {
    "<a href=\"" + safeUrl + "\">" + safeUrl + "</a>"
  }

  function EscapeLink(url: string): string {
    Anchor(Escaped(url))
  }

  /** The HTML printed for a list of nodes. */
  function Render(ns: Nodes): string {
    Show(EscapeChar, EscapeLink, ns)
  }

  /** Length of the part of the match at position i that is linked. */
  function UrlLength(raw: string, i: nat): (k: nat)
    requires i <= |raw|
    ensures k <= MatchAt(raw, i)
  {
    TrimLength(raw, i, MatchAt(raw, i))
  }

  /** A match: where it starts, how much of it is linked, and how long it is. */
  datatype Span = Span(start: nat, keep: nat, length: nat)

  datatype Spans = NoMore | Next(span: Span, rest: Spans)

  /** The kept parts are in order, disjoint and inside the text, from a position on. */
  predicate Placed(spans: Spans, from: nat, size: nat) {
    match spans
    case NoMore => from <= size
    case Next(sp, rest) =>
      from <= sp.start && 0 < sp.keep && sp.start + sp.keep <= size && Placed(rest, sp.start + sp.keep, size)
  }

  /** The successive matches of the global match iterator: leftmost, greedy, not overlapping. */
  function Scan(raw: string, from: nat): (spans: Spans)
    requires from <= |raw|
    decreases |raw| - from
  {
    match FindMatch(raw, from)
    case None => NoMore
    case Some(m) => Next(Span(m.start, UrlLength(raw, m.start), m.length), Scan(raw, m.start + m.length))
  }

  /** The text from the cursor on, with the kept part of every span turned into a link. */
  function Segments(raw: string, cursor: nat, spans: Spans): Nodes
    requires Placed(spans, cursor, |raw|)
    decreases spans
  {
    match spans
    case NoMore => CharsThen(raw, cursor, |raw|, Nil)
    case Next(sp, rest) =>
      CharsThen(raw, cursor, sp.start,
                Cons(Link(raw[sp.start..sp.start + sp.keep]), Segments(raw, sp.start + sp.keep, rest)))
  }

  lemma {:induction false} ScanIsPlaced(raw: string, from: nat)
    requires from <= |raw|
    ensures Placed(Scan(raw, from), from, |raw|)
    decreases |raw| - from
  {
    hide MatchAt, SchemeAt, UrlRun, TrimLength, NoMatch;
    var m := FindMatch(raw, from);
    if m.Some? {
      MatchKeepsScheme(raw, m.value.start);
      ScanIsPlaced(raw, m.value.start + m.value.length);
      assert UrlLength(raw, m.value.start) <= m.value.length;
    }
  }

  /** The transcript nodes of a text. */
  function Linkified(raw: string): Nodes {
    ScanIsPlaced(raw, 0);
    Segments(raw, 0, Scan(raw, 0))
  }

  lemma {:induction false} CharsThenShow(f: char -> string, g: string -> string, s: string, a: nat, b: nat, rest: Nodes)
    requires a <= b <= |s|
    ensures Show(f, g, CharsThen(s, a, b, rest)) == Printed(f, s[a..b], 0) + Show(f, g, rest)
    decreases |s| - a
  {
    if a < b {
      CharsThenShow(f, g, s, a + 1, b, rest);
      PrintedTail(f, s[a..b], 0);
      assert s[a..b][1..] == s[a + 1..b];
      Assoc(f(s[a]), Printed(f, s[a + 1..b], 0), Show(f, g, rest));
    }
  }

  lemma {:induction false} PrintedTail(f: char -> string, s: string, a: nat)
    requires a < |s|
    ensures Printed(f, s, a + 1) == Printed(f, s[1..], a)
    decreases |s| - a
  {
    if a + 1 < |s| { PrintedTail(f, s, a + 1); }
  }

  lemma Regroup(a: string, b: string, c: string, d: string)
    ensures a + (b + (c + d)) == a + b + c + d
  {
    assert a + (b + (c + d)) == a + b + (c + d);
  }

  /** The kept part of every span is what trimming its match leaves. */
  predicate Trims(raw: string, spans: Spans) {
    match spans
    case NoMore => true
    case Next(sp, rest) =>
      && sp.start + sp.length <= |raw|
      && sp.keep == TrimLength(raw, sp.start, sp.length)
      && Trims(raw, rest)
  }

  lemma {:induction false} ScanTrims(raw: string, from: nat)
    requires from <= |raw|
    ensures Trims(raw, Scan(raw, from))
    decreases |raw| - from
  {
    var m := FindMatch(raw, from);
    if m.Some? { ScanTrims(raw, m.value.start + m.value.length); }
  }

  lemma TrimmedSlice(raw: string, a: nat, n: nat)
    requires a + n <= |raw|
    ensures Trimmed(raw[a..a + n]) == raw[a..a + TrimLength(raw, a, n)]
  {
    TrimLengthSlice(raw, a, a + n, n);
    var k := TrimLength(raw, a, n);
    assert raw[a..a + n][..k] == raw[a..a + k];
  }

  /** What the match loop still prints, after what it has printed already. */
  function Printing(f: char -> string, g: string -> string, raw: string, cursor: nat, spans: Spans, out: string): string
    requires Placed(spans, cursor, |raw|)
    decreases spans
  {
    match spans
    case NoMore => out + Printed(f, raw[cursor..], 0)
    case Next(sp, rest) =>
      var end := sp.start + sp.keep;
      Printing(f, g, raw, end, rest, out + Printed(f, raw[cursor..sp.start], 0) + g(raw[sp.start..end]))
  }

  lemma {:induction false} PrintingShows(f: char -> string, g: string -> string, raw: string, cursor: nat,
                                         spans: Spans, out: string)
    requires Placed(spans, cursor, |raw|)
    ensures Printing(f, g, raw, cursor, spans, out) == out + Show(f, g, Segments(raw, cursor, spans))
    decreases spans
  {
    match spans
    case NoMore =>
      CharsThenShow(f, g, raw, cursor, |raw|, Nil);
      assert raw[cursor..|raw|] == raw[cursor..];
    case Next(sp, rest) =>
      var end := sp.start + sp.keep;
      var url, after := raw[sp.start..end], Segments(raw, end, rest);
      var gap := Printed(f, raw[cursor..sp.start], 0);
      CharsThenShow(f, g, raw, cursor, sp.start, Cons(Link(url), after));
      PrintingShows(f, g, raw, end, rest, out + gap + g(url));
      Regroup(out, gap, g(url), Show(f, g, after));
  }

  /** toRichText: the match loop over a cursor, printing gaps escaped and matches as anchors. */
  method ToRichText(raw: string) returns (out: string)
    ensures out == Render(Linkified(raw))
    ensures ParseHtml(out) == Some(Linkified(raw))
  {
    hide Linkified, Render, TrimLength, MatchAt, ParseHtml, Scan, Segments, EscapeChar;
    out := "";
    var cursor := 0;
    var it := Scan(raw, 0);
    ScanPrints(raw);
    while it.Next?
      invariant 0 <= cursor && Placed(it, cursor, |raw|) && Trims(raw, it)
      invariant Printing(EscapeChar, EscapeLink, raw, cursor, it, out) == Render(Linkified(raw))
      decreases it
    {
      var m := it.span;
      var url := TrimTrailing(raw[m.start..m.start + m.length]);
      TrimmedSlice(raw, m.start, m.length);
      assert |url| == m.keep;
      if url != "" {
        var gap := Escape(raw[cursor..m.start]);
        var safeUrl := Escape(url);
        out := out + gap + Anchor(safeUrl);
        cursor := m.start + |url|;
      }
      it := it.rest;
    }
    var rest := Escape(raw[cursor..]);
    out := out + rest;
    LinkifiedParses(raw);
  }

  lemma ScanPrints(raw: string)
    ensures Placed(Scan(raw, 0), 0, |raw|) && Trims(raw, Scan(raw, 0))
    ensures Printing(EscapeChar, EscapeLink, raw, 0, Scan(raw, 0), "") == Render(Linkified(raw))
  {
    ScanIsPlaced(raw, 0);
    ScanTrims(raw, 0);
    PrintingShows(EscapeChar, EscapeLink, raw, 0, Scan(raw, 0), "");
  }

  lemma LinkifiedParses(raw: string)
    ensures ParseHtml(Render(Linkified(raw))) == Some(Linkified(raw))
  {
    LinkifiedIsWellFormed(raw);
    ParseRender(Linkified(raw));
  }

  // ---------------------------------------------------------------- reading the HTML back

  /** The character reference at the start of s: what it stands for, and its length. */
  function Reference(s: string): (r: Option<(char, nat)>)
    ensures r.Some? ==> 0 < r.value.1 <= |s|
  {
    if "&amp;" <= s then Some(('&', 5))
    else if "&lt;" <= s then Some(('<', 4))
    else if "&gt;" <= s then Some(('>', 4))
    else if "&quot;" <= s then Some(('"', 6))
    else if "&#39;" <= s then Some(('\'', 5))
    else None
  }

  /** Decodes character references; a bare ampersand is an error. */
  function Unescape(s: string): Option<string> {
    if s == [] then Some("")
    else if s[0] == '&' then
      match Reference(s)
      case None => None
      case Some((c, k)) => Prepend(c, Unescape(s[k..]))
    else Prepend(s[0], Unescape(s[1..]))
  }

  function Prepend(c: char, rest: Option<string>): Option<string> {
    match rest
    case None => None
    case Some(t) => Some([c] + t)
  }

  /** The text before the first occurrence of a delimiter, or all of it. */
  function Until(s: string, stop: char): (t: string)
    ensures t <= s
    ensures stop !in t
    ensures |t| < |s| ==> s[|t|] == stop
  {
    if s == [] || s[0] == stop then "" else [s[0]] + Until(s[1..], stop)
  }

  function AddNode(n: Node, rest: Option<Nodes>): Option<Nodes> {
    match rest
    case None => None
    case Some(ns) => Some(Cons(n, ns))
  }

  const ANCHOR: string := "<a href=\""
  const CLOSE: string := "</a>"
  const BREAK: string := "<br>"

  /** An anchor at the start of html: its URL, and the length of the element. */
  function AnchorAt(html: string): (r: Option<(string, nat)>)
    ensures r.Some? ==> 0 < r.value.1 <= |html|
  {
    if !(ANCHOR <= html) then None
    else
      var value := Until(html[|ANCHOR|..], '"');
      var element := ANCHOR + value + "\">" + value + CLOSE;
      if !(element <= html) then None
      else
        match Unescape(value)
        case None => None
        case Some(url) => if IsLinkText(url) then Some((url, |element|)) else None
  }

  /** The grammar of the output: plain characters, five character references, br, and un-nested anchors. */
  function ParseHtml(html: string): Option<Nodes>
    decreases |html|
  {
    if html == [] then Some(Nil)
    else if html[0] == '&' then
      match Reference(html)
      case None => None
      case Some((c, k)) => AddNode(Ch(c), ParseHtml(html[k..]))
    else if BREAK <= html then AddNode(Ch('\n'), ParseHtml(html[|BREAK|..]))
    else if html[0] == '<' then
      match AnchorAt(html)
      case None => None
      case Some((url, k)) => AddNode(Link(url), ParseHtml(html[k..]))
    else if html[0] in ">\"'\n" then None
    else AddNode(Ch(html[0]), ParseHtml(html[1..]))
  }

  /** A scheme with its slashes, then characters that need no quoting in an attribute. */
  predicate IsLinkText(url: string) {
    && SchemeAt(url, 0) > 0
    && forall i :: 0 <= i < |url| ==> IsUrlChar(url[i])
  }

  predicate WellFormed(ns: Nodes) {
    match ns
    case Nil => true
    case Cons(n, rest) => (n.Link? ==> IsLinkText(n.url)) && WellFormed(rest)
  }

  predicate IsReferenced(c: char) {
    c in "&<>\"'"
  }

  lemma ReferenceOfEscape(c: char, rest: string)
    requires IsReferenced(c)
    ensures Reference(EscapeChar(c) + rest) == Some((c, |EscapeChar(c)|))
    ensures (EscapeChar(c) + rest)[0] == '&'
  {
    var e := EscapeChar(c);
    var s := e + rest;
    assert e <= s;
    assert s[1] == e[1] && (e[1] == 'g' || e[1] == 'l' ==> s[2] == e[2]);
  }

  lemma {:induction false} UnescapeEscaped(s: string, a: nat)
    requires a <= |s| && '\n' !in s
    ensures Unescape(Printed(EscapeChar, s, a)) == Some(s[a..])
    decreases |s| - a
  {
    if a < |s| {
      UnescapeEscaped(s, a + 1);
      var e, rest := EscapeChar(s[a]), Printed(EscapeChar, s, a + 1);
      assert (e + rest)[|e|..] == rest;
      assert s[a] in s;
      if IsReferenced(s[a]) { ReferenceOfEscape(s[a], rest); }
      assert [s[a]] + s[a + 1..] == s[a..];
    } else {
      assert s[a..] == "";
    }
  }

  lemma {:induction false} EscapedHasNoQuote(url: string, a: nat)
    requires a <= |url|
    ensures '"' !in Printed(EscapeChar, url, a)
    decreases |url| - a
  {
    if a < |url| { EscapedHasNoQuote(url, a + 1); }
  }

  lemma {:induction false} UntilStops(t: string, rest: string, stop: char)
    requires stop !in t && rest != [] && rest[0] == stop
    ensures Until(t + rest, stop) == t
  {
    if t == [] {
      assert t + rest == rest;
    } else {
      assert (t + rest)[1..] == t[1..] + rest;
      UntilStops(t[1..], rest, stop);
    }
  }

  lemma ParseChar(c: char, rest: string)
    ensures ParseHtml(EscapeChar(c) + rest) == AddNode(Ch(c), ParseHtml(rest))
  {
    var e := EscapeChar(c);
    var html := e + rest;
    assert html[|e|..] == rest && html[0] == e[0];
    if IsReferenced(c) {
      ReferenceOfEscape(c, rest);
    } else if c == '\n' {
      assert e == BREAK && BREAK <= html;
    }
  }

  lemma AnchorOfLink(url: string, rest: string)
    requires IsLinkText(url)
    ensures AnchorAt(EscapeLink(url) + rest) == Some((url, |EscapeLink(url)|))
  {
    var v := Escaped(url);
    EscapedHasNoQuote(url, 0);
    UnescapeEscaped(url, 0);
    assert url[0..] == url;
    var element := EscapeLink(url);
    var html := element + rest;
    var after := "\">" + v + CLOSE + rest;
    assert element == ANCHOR + v + "\">" + v + CLOSE;
    AnchorShape(ANCHOR, v, "\">", CLOSE, rest);
    UntilStops(v, after, '"');
    assert element <= html;
  }

  lemma AnchorShape(open: string, v: string, mid: string, close: string, rest: string)
    ensures var html := open + v + mid + v + close + rest;
            open <= html && html[|open|..] == v + (mid + v + close + rest)
  {
    var html := open + v + mid + v + close + rest;
    assert html == open + (v + (mid + v + close + rest));
  }

  lemma ParseLink(url: string, rest: string)
    requires IsLinkText(url)
    ensures ParseHtml(EscapeLink(url) + rest) == AddNode(Link(url), ParseHtml(rest))
  {
    var element := EscapeLink(url);
    var html := element + rest;
    AnchorOfLink(url, rest);
    assert element[0] == '<' && element[1] == 'a';
    assert html[0] == '<' && html[1] == 'a';
    assert html[|element|..] == rest;
  }

  /** Reading the printed form of any well-formed node list gives the node list back. */
  lemma {:induction false} ParseRender(ns: Nodes)
    requires WellFormed(ns)
    ensures ParseHtml(Render(ns)) == Some(ns)
  {
    match ns
    case Nil =>
    case Cons(n, rest) =>
      ParseRender(rest);
      match n {
        case Ch(c) => ParseChar(c, Render(rest));
        case Link(url) => ParseLink(url, Render(rest));
      }
  }

  // ---------------------------------------------------------------- what the scan promises

  /** Trimming never eats into the scheme, so no anchor is ever empty. */
  lemma MatchKeepsScheme(raw: string, i: nat)
    requires i <= |raw| && MatchAt(raw, i) > 0
    ensures 0 < SchemeAt(raw, i) <= UrlLength(raw, i)
    ensures IsLinkText(raw[i..i + UrlLength(raw, i)])
  {
    var m: nat, k: nat := MatchAt(raw, i), SchemeAt(raw, i);
    assert raw[i + k - 1] == '/';
    TrimLengthIsLongest(raw, i, m);
    assert MayEnd(raw, i, k);
    var url := raw[i..i + UrlLength(raw, i)];
    assert |url| >= k;
    forall j | 0 <= j < |url| ensures url[j] == raw[i + j] && IsUrlChar(url[j]) {
      if j >= k { assert i + k <= i + j < i + k + UrlRun(raw, i + k); }
    }
  }

  lemma {:induction false} CharsThenWellFormed(s: string, a: nat, b: nat, rest: Nodes)
    requires a <= b <= |s| && WellFormed(rest)
    ensures WellFormed(CharsThen(s, a, b, rest))
    decreases |s| - a
  {
    if a < b { CharsThenWellFormed(s, a + 1, b, rest); }
  }

  /** Every span keeps a piece of text fit for a link. */
  predicate LinkTexts(raw: string, spans: Spans) {
    match spans
    case NoMore => true
    case Next(sp, rest) =>
      sp.start + sp.keep <= |raw| && IsLinkText(raw[sp.start..sp.start + sp.keep]) && LinkTexts(raw, rest)
  }

  lemma {:induction false} ScanLinkTexts(raw: string, from: nat)
    requires from <= |raw|
    ensures LinkTexts(raw, Scan(raw, from))
    decreases |raw| - from
  {
    hide MatchAt, SchemeAt, IsLinkText, TrimLength, NoMatch;
    var it := FindMatch(raw, from);
    if it.Some? {
      var i := it.value.start;
      MatchKeepsScheme(raw, i);
      ScanLinkTexts(raw, i + it.value.length);
    }
  }

  lemma {:induction false} SegmentsWellFormed(raw: string, cursor: nat, spans: Spans)
    requires Placed(spans, cursor, |raw|) && LinkTexts(raw, spans)
    ensures WellFormed(Segments(raw, cursor, spans))
    decreases spans
  {
    match spans
    case NoMore =>
      CharsThenWellFormed(raw, cursor, |raw|, Nil);
    case Next(sp, rest) =>
      var k := sp.start + sp.keep;
      SegmentsWellFormed(raw, k, rest);
      CharsThenWellFormed(raw, cursor, sp.start, Cons(Link(raw[sp.start..k]), Segments(raw, k, rest)));
  }

  lemma LinkifiedIsWellFormed(raw: string)
    ensures WellFormed(Linkified(raw))
  {
    ScanIsPlaced(raw, 0);
    ScanLinkTexts(raw, 0);
    SegmentsWellFormed(raw, 0, Scan(raw, 0));
  }

  lemma {:induction false} PrintedPlain(s: string, a: nat)
    requires a <= |s|
    ensures Printed(PlainChar, s, a) == s[a..]
    decreases |s| - a
  {
    if a < |s| {
      PrintedPlain(s, a + 1);
      assert [s[a]] + s[a + 1..] == s[a..];
    }
  }

  lemma CharsThenSource(s: string, a: nat, b: nat, rest: Nodes)
    requires a <= b <= |s|
    ensures Source(CharsThen(s, a, b, rest)) == s[a..b] + Source(rest)
  {
    CharsThenShow(PlainChar, PlainUrl, s, a, b, rest);
    PrintedPlain(s[a..b], 0);
    assert s[a..b][0..] == s[a..b];
  }

  /** No character is lost, duplicated or reordered, wherever the spans lie. */
  lemma {:induction false} SegmentsSource(raw: string, cursor: nat, spans: Spans)
    requires Placed(spans, cursor, |raw|)
    ensures cursor <= |raw| && Source(Segments(raw, cursor, spans)) == raw[cursor..]
    decreases spans
  {
    match spans
    case NoMore =>
      CharsThenSource(raw, cursor, |raw|, Nil);
    case Next(sp, rest) =>
      var k := sp.start + sp.keep;
      SegmentsSource(raw, k, rest);
      CharsThenSource(raw, cursor, sp.start, Cons(Link(raw[sp.start..k]), Segments(raw, k, rest)));
      assert raw[sp.start..k] + raw[k..] == raw[sp.start..];
      assert raw[cursor..sp.start] + raw[sp.start..] == raw[cursor..];
  }

  /** The parse-back theorem: the printed text, read as HTML, stands for exactly the raw text. */
  lemma ParseBack(raw: string)
    ensures var out := Render(Linkified(raw));
            ParseHtml(out).Some? && WellFormed(ParseHtml(out).value) && Source(ParseHtml(out).value) == raw
  {
    LinkifiedIsWellFormed(raw);
    ParseRender(Linkified(raw));
    ScanIsPlaced(raw, 0);
    SegmentsSource(raw, 0, Scan(raw, 0));
    assert raw[0..] == raw;
  }

  /** Two texts never share a rendering. */
  lemma RenderingIsInjective(a: string, b: string)
    requires Render(Linkified(a)) == Render(Linkified(b))
    ensures a == b
  {
    ParseBack(a);
    ParseBack(b);
  }

  /** Position p of the source text lies inside a link. */
  predicate InLink(ns: Nodes, p: nat) {
    match ns
    case Nil => false
    case Cons(n, rest) => if p < Width(n) then n.Link? else InLink(rest, p - Width(n))
  }

  /** The link that begins at position p of the source text, if one does. */
  function LinkAt(ns: Nodes, p: nat): Option<string> {
    match ns
    case Nil => None
    case Cons(n, rest) =>
      if p == 0 && n.Link? then Some(n.url)
      else if p < Width(n) then None
      else LinkAt(rest, p - Width(n))
  }

  lemma {:induction false} CharsHoldNoLink(s: string, a: nat, b: nat, rest: Nodes, p: nat)
    requires a <= b <= |s|
    ensures p >= b - a ==> InLink(CharsThen(s, a, b, rest), p) == InLink(rest, p - (b - a))
    ensures p >= b - a ==> LinkAt(CharsThen(s, a, b, rest), p) == LinkAt(rest, p - (b - a))
    ensures p < b - a ==> LinkAt(CharsThen(s, a, b, rest), p) == None && !InLink(CharsThen(s, a, b, rest), p)
    decreases |s| - a
  {
    if a < b && p > 0 { CharsHoldNoLink(s, a + 1, b, rest, p - 1); }
  }

  /** Position p lies in the kept part of a span. */
  predicate Kept(spans: Spans, p: nat) {
    match spans
    case NoMore => false
    case Next(sp, rest) => (sp.start <= p < sp.start + sp.keep) || Kept(rest, p)
  }

  /** How many characters are linked by the span that starts at p; 0 if none does. */
  function KeptFrom(spans: Spans, p: nat): nat {
    match spans
    case NoMore => 0
    case Next(sp, rest) => if sp.start == p then sp.keep else KeptFrom(rest, p)
  }

  lemma {:induction false} NothingKeptBefore(spans: Spans, from: nat, size: nat, p: nat)
    requires Placed(spans, from, size) && p < from
    ensures !Kept(spans, p) && KeptFrom(spans, p) == 0
  {
    if spans.Next? { NothingKeptBefore(spans.rest, spans.span.start + spans.span.keep, size, p); }
  }

  /** What the reader sees linked is exactly what the spans keep. */
  lemma {:induction false} LinksAreSpans(raw: string, cursor: nat, spans: Spans, p: nat)
    requires Placed(spans, cursor, |raw|) && cursor <= p <= |raw|
    ensures InLink(Segments(raw, cursor, spans), p - cursor) <==> Kept(spans, p)
    ensures var k := KeptFrom(spans, p);
            && p + k <= |raw|
            && LinkAt(Segments(raw, cursor, spans), p - cursor) == if k == 0 then None else Some(raw[p..p + k])
    decreases spans
  {
    match spans
    case NoMore =>
      CharsHoldNoLink(raw, cursor, |raw|, Nil, p - cursor);
    case Next(sp, rest) =>
      var k := sp.start + sp.keep;
      var link := Cons(Link(raw[sp.start..k]), Segments(raw, k, rest));
      CharsHoldNoLink(raw, cursor, sp.start, link, p - cursor);
      if p >= k {
        LinksAreSpans(raw, k, rest, p);
      } else {
        NothingKeptBefore(rest, k, |raw|, p);
      }
  }

  /** Only punctuation and closing brackets are ever cut off. */
  lemma TrimmedTail(raw: string, i: nat, p: nat)
    requires i <= |raw| && i + UrlLength(raw, i) <= p < i + MatchAt(raw, i)
    ensures IsCloser(raw[p]) || IsSentencePunctuation(raw[p])
  {
    TrimLengthIsLongest(raw, i, MatchAt(raw, i));
    assert !MayEnd(raw, i, p - i + 1);
  }

  /** A match that begins inside another begins inside its kept part. */
  lemma MatchInsideMatch(raw: string, i: nat, p: nat)
    requires i <= |raw| && i <= p < i + MatchAt(raw, i) && MatchAt(raw, p) > 0
    ensures p < i + UrlLength(raw, i)
  {
    if p >= i + UrlLength(raw, i) { TrimmedTail(raw, i, p); }
  }

  lemma {:induction false} NoMatchAt(s: string, from: nat, to: nat, p: nat)
    requires from <= p < to <= |s| && NoMatch(s, from, to)
    ensures MatchAt(s, p) == 0
    decreases |s| - from
  {
    if from < p { NoMatchAt(s, from + 1, to, p); }
  }

  lemma {:induction false} MatchesAreKept(raw: string, from: nat, p: nat)
    requires from <= p <= |raw| && MatchAt(raw, p) > 0
    ensures Kept(Scan(raw, from), p)
    decreases |raw| - from
  {
    var it := FindMatch(raw, from);
    if it.None? {
      NoMatchAt(raw, from, |raw|, p);
    } else {
      var m := it.value;
      if p < m.start {
        NoMatchAt(raw, from, m.start, p);
      } else if p >= m.start + m.length {
        MatchesAreKept(raw, m.start + m.length, p);
      } else {
        MatchInsideMatch(raw, m.start, p);
      }
    }
  }

  lemma {:induction false} SpansAreMatches(raw: string, from: nat, p: nat)
    requires from <= |raw| && KeptFrom(Scan(raw, from), p) > 0
    ensures p <= |raw| && MatchAt(raw, p) > 0 && KeptFrom(Scan(raw, from), p) == UrlLength(raw, p)
    decreases |raw| - from
  {
    hide MatchAt, TrimLength, NoMatch;
    var it := FindMatch(raw, from);
    if it.Some? && it.value.start != p { SpansAreMatches(raw, it.value.start + it.value.length, p); }
  }

  lemma LinksOfScan(raw: string, p: nat)
    requires p <= |raw|
    ensures InLink(Linkified(raw), p) <==> Kept(Scan(raw, 0), p)
    ensures LinkAt(Linkified(raw), p).Some? ==>
              && 0 < KeptFrom(Scan(raw, 0), p) <= |raw| - p
              && LinkAt(Linkified(raw), p) == Some(raw[p..p + KeptFrom(Scan(raw, 0), p)])
  {
    hide MatchAt, TrimLength;
    ScanIsPlaced(raw, 0);
    LinksAreSpans(raw, 0, Scan(raw, 0), p);
  }

  /** No URL is missed: wherever the pattern matches, the reader is inside a link. */
  lemma EveryUrlIsLinked(raw: string, p: nat)
    requires p <= |raw| && MatchAt(raw, p) > 0
    ensures InLink(Linkified(raw), p)
  {
    MatchesAreKept(raw, 0, p);
    LinksOfScan(raw, p);
  }

  /** Nothing else is linked: a link begins only where the pattern matches, and is that match trimmed. */
  lemma EveryLinkIsATrimmedMatch(raw: string, p: nat)
    requires p <= |raw| && LinkAt(Linkified(raw), p).Some?
    ensures MatchAt(raw, p) > 0 && LinkAt(Linkified(raw), p) == Some(raw[p..p + UrlLength(raw, p)])
  {
    LinksOfScan(raw, p);
    SpansAreMatches(raw, 0, p);
  }

  // ---------------------------------------------------------------- the scheme, exactly

  function AsciiLower(c: char): char {
    if 'A' <= c <= 'Z' then ((c as int) + 32) as char else c
  }

  predicate HasPlainHttpScheme(url: string) {
    || (7 <= |url| && (forall i :: 0 <= i < 7 ==> AsciiLower(url[i]) == "http://"[i]))
    || (8 <= |url| && (forall i :: 0 <= i < 8 ==> AsciiLower(url[i]) == "https://"[i]))
  }

  /**
   A link carries the http or https scheme of RFC 3986 section 3.1 (letters in
   either ASCII case) exactly when its fifth character is not the long s.
   */
  lemma LinkSchemeExactly(url: string)
    requires IsLinkText(url)
    ensures 5 <= |url| && (HasPlainHttpScheme(url) <==> url[4] != LONG_S)
  {
    if url[4] == LONG_S {
      assert AsciiLower(url[4]) != "http://"[4] && AsciiLower(url[4]) != "https://"[4];
    }
  }

  /** Conversely a plain scheme is recognised wherever it stands, in either case of every letter. */
  lemma PlainSchemeIsRecognised(s: string, i: nat)
    requires i <= |s| && HasPlainHttpScheme(s[i..])
    ensures SchemeAt(s, i) == if AsciiLower(s[i + 4]) == 's' then 8 else 7
  {
    var t := s[i..];
    if 7 <= |t| && forall j :: 0 <= j < 7 ==> AsciiLower(t[j]) == "http://"[j] {
      forall j | 0 <= j < 7 ensures AsciiLower(s[i + j]) == "http://"[j] { assert t[j] == s[i + j]; }
      assert AsciiLower(s[i]) == 'h' && AsciiLower(s[i + 1]) == 't' && AsciiLower(s[i + 2]) == 't' && AsciiLower(s[i + 3]) == 'p';
      assert AsciiLower(s[i + 4]) == ':' && AsciiLower(s[i + 5]) == '/' && AsciiLower(s[i + 6]) == '/';
    } else {
      forall j | 0 <= j < 8 ensures AsciiLower(s[i + j]) == "https://"[j] { assert t[j] == s[i + j]; }
      assert AsciiLower(s[i]) == 'h' && AsciiLower(s[i + 1]) == 't' && AsciiLower(s[i + 2]) == 't' && AsciiLower(s[i + 3]) == 'p';
      assert AsciiLower(s[i + 4]) == 's';
      assert AsciiLower(s[i + 5]) == ':' && AsciiLower(s[i + 6]) == '/' && AsciiLower(s[i + 7]) == '/';
    }
  }

  /** Not white space, not an angle bracket, and none of the three quotes. */
  lemma UrlCharsExactly(c: char)
    ensures IsUrlChar(c) <==> c !in " \t\n\U{000B}\U{000C}\r<>\"'`"
  {
  }

  /** A match is a scheme and then all the URL characters that follow, at least one. */
  lemma {:induction false} UrlRunIsGreedy(s: string, i: nat)
    requires i <= |s|
    ensures i + UrlRun(s, i) == |s| || !IsUrlChar(s[i + UrlRun(s, i)])
    decreases |s| - i
  {
    if i < |s| && IsUrlChar(s[i]) { UrlRunIsGreedy(s, i + 1); }
  }

  lemma MatchExactly(s: string, i: nat)
    requires i <= |s|
    ensures var k := SchemeAt(s, i);
            && (MatchAt(s, i) > 0 <==> k > 0 && i + k < |s| && IsUrlChar(s[i + k]))
            && (MatchAt(s, i) > 0 ==>
                  var end := i + MatchAt(s, i);
                  && i + k < end <= |s| && (forall j :: i + k <= j < end ==> IsUrlChar(s[j]))
                  && (end == |s| || !IsUrlChar(s[end])))
  {
    var k := SchemeAt(s, i);
    if k > 0 { UrlRunIsGreedy(s, i + k); }
  }

  /** The exception is real: the scan does link such a text. */
  lemma LongSIsLinked()
    ensures var raw := ['h', 't', 't', 'p', LONG_S, ':', '/', '/', 'x'];
            LinkAt(Linkified(raw), 0) == Some(raw) && !HasPlainHttpScheme(raw)
  {
    var raw := ['h', 't', 't', 'p', LONG_S, ':', '/', '/', 'x'];
    assert SchemeAt(raw, 0) == 8;
    assert UrlRun(raw, 9) == 0;
    assert MatchAt(raw, 0) == 9;
    assert raw[0..9] == raw;
    assert MayEnd(raw, 0, 9);
    ScanIsPlaced(raw, 0);
    assert KeptFrom(Scan(raw, 0), 0) == 9;
    LinksAreSpans(raw, 0, Scan(raw, 0), 0);
    MatchKeepsScheme(raw, 0);
    LinkSchemeExactly(raw);
  }
}
