/** HTTP requests, the request-line pattern, header lines and Content-Length (source/http.hpp). */
module HttpMessage {
  import opened Text
  import UrlCodec

  /** The value of an HttpRequest object. */
  datatype Request = Request(verb: string, path: string, version: string, body: string,
                             headers: map<string, string>, params: map<string, string>)

  const BLANK := Request("", "", "HTTP/1.1", "", map[], map[])

  /** std::unordered_map::insert: an existing key keeps its value. */
  function Insert(m: map<string, string>, key: string, val: string): map<string, string> {
    if key in m then m else m[key := val]
  }

  // ---------------------------------------------------------- Content-Length

  /** std::to_string of a size. */
  function Decimal(n: nat): string {
    if n < 10 then [('0' as int + n) as char] else Decimal(n / 10) + [('0' as int + n % 10) as char]
  }

  predicate IsSpace(c: char) {
    c == ' ' || '\t' <= c <= '\r'
  }

  predicate IsDigit(c: char) {
    '0' <= c <= '9'
  }

  function SkipSpace(s: string): string {
    if s != "" && IsSpace(s[0]) then SkipSpace(s[1..]) else s
  }

  /** The value of the leading digits, added to what was read before. */
  function DigitsValue(s: string, acc: nat): nat {
    if s != "" && IsDigit(s[0]) then DigitsValue(s[1..], acc * 10 + (s[0] as int - '0' as int)) else acc
  }

  /** std::stol with a 64-bit long; None stands for the exceptions invalid_argument and out_of_range. */
  function Stol(s: string): Option<int> {
    var t := SkipSpace(s);
    var negative := t != "" && t[0] == '-';
    var u := if t != "" && (t[0] == '-' || t[0] == '+') then t[1..] else t;
    if u == "" || !IsDigit(u[0]) then None
    else
      var v := if negative then -(DigitsValue(u, 0) as int) else DigitsValue(u, 0);
      if -0x8000_0000_0000_0000 <= v <= 0x7FFF_FFFF_FFFF_FFFF then Some(v) else None
  }

  /** HttpRequest::ContentLength: absent is 0, a negative value wraps to a huge size_t. */
  function ContentLength(headers: map<string, string>): Option<nat> {
    if "Content-Length" !in headers then Some(0)
    else
      var v := Stol(headers["Content-Length"]);
      if v.None? then None else if v.value < 0 then Some(v.value + 0x1_0000_0000_0000_0000) else Some(v.value)
  }

  /** HttpRequest::Close: short connection unless the header says keep-alive. */
  predicate WantsClose(headers: map<string, string>) {
    !("Connection" in headers && headers["Connection"] == "keep-alive")
  }

  // ------------------------------------------------------------ request line

  function UpperChar(c: char): char {
    if 'a' <= c <= 'z' then (c as int - 32) as char else c
  }

  function Upper(s: string): (r: string)
    ensures |r| == |s|
  {
    if s == "" then "" else [UpperChar(s[0])] + Upper(s[1..])
  }

  predicate IsVerb(s: string) {
    var u := Upper(s);
    u == "GET" || u == "HEAD" || u == "POST" || u == "PUT" || u == "DELETE"
  }

  predicate IsVersion(s: string) {
    |s| == 8 && (Upper(s) == "HTTP/1.0" || Upper(s) == "HTTP/1.1")
  }

  /** What "." matches: anything but a line terminator. */
  predicate OneLine(s: string) {
    '\n' !in s && '\r' !in s
  }

  /** The four capture groups; an unmatched query group yields the empty string. */
  datatype LineParts = LineParts(verb: string, path: string, query: string, version: string)

  function QueryPart(query: Option<string>): string {
    match query
    case None => ""
    case Some(q) => "?" + q
  }

  /**
   The meaning of the pattern
     (GET|HEAD|POST|PUT|DELETE) ([^?]*)(?:\?(.*))? (HTTP/1\.[01])(?:\n|\r\n)?
   matched against the whole line, ignoring case.
   */
  ghost predicate Decomposes(line: string, verb: string, path: string, query: Option<string>, version: string, eol: string) {
    && line == verb + " " + path + QueryPart(query) + " " + version + eol
    && IsVerb(verb)
    && '?' !in path
    && (query.Some? ==> OneLine(query.value))
    && IsVersion(version)
    && (eol == "" || eol == "\n" || eol == "\r\n")
  }

  /** Drops one line ending, "\n" or "\r\n". */
  function StripEol(line: string): string {
    if line == "" || line[|line| - 1] != '\n' then line
    else
      var l := line[..|line| - 1];
      if l != "" && l[|l| - 1] == '\r' then l[..|l| - 1] else l
  }

  /** The path before the first '?', and the query after it. */
  function SplitTarget(target: string): (string, Option<string>) {
    var q := Find(target, "?", 0);
    if q.None? then (target, None) else (target[..q.value], Some(target[q.value + 1..]))
  }

  /** Direct parse: verb up to the first space, version from the end, path up to the first '?'. */
  function MatchLine(line: string): Option<LineParts> {
    MatchText(StripEol(line))
  }

  function MatchText(text: string): Option<LineParts> {
    var sp := Find(text, " ", 0);
    if sp.None? || |text| < sp.value + 10 then None
    else
      var verb := text[..sp.value];
      var version := text[|text| - 8..];
      var (path, query) := SplitTarget(text[sp.value + 1..|text| - 9]);
      if IsVerb(verb) && IsVersion(version) && text[|text| - 9] == ' ' && (query.Some? ==> OneLine(query.value))
      then Some(LineParts(verb, path, if query.Some? then query.value else "", version))
      else None
  }

  lemma {:induction false} UpperAt(s: string, k: nat)
    requires k < |s|
    ensures Upper(s)[k] == UpperChar(s[k])
  {
    if k > 0 {
      UpperAt(s[1..], k - 1);
    }
  }

  /** No verb contains a space. */
  lemma VerbNoSpace(s: string)
    requires IsVerb(s)
    ensures ' ' !in s
  {
    forall k | 0 <= k < |s| ensures s[k] != ' ' {
      UpperAt(s, k);
    }
  }

  /** A version does not end in a line terminator. */
  lemma VersionEnd(s: string)
    requires IsVersion(s)
    ensures s[7] != '\n' && s[7] != '\r'
  {
    UpperAt(s, 7);
  }

  lemma StripVersion(text: string, eol: string)
    requires text != "" && text[|text| - 1] != '\n' && text[|text| - 1] != '\r'
    requires eol == "" || eol == "\n" || eol == "\r\n"
    ensures StripEol(text + eol) == text
  {
    var line := text + eol;
    if eol == "\n" {
      assert line[..|line| - 1] == text;
    } else if eol == "\r\n" {
      assert line[..|line| - 1] == text + "\r";
      assert (text + "\r")[..|text|] == text;
    } else {
      assert line == text;
    }
  }

  /** What StripEol removed is a line ending. */
  lemma StripRest(line: string) returns (eol: string)
    ensures line == StripEol(line) + eol && (eol == "" || eol == "\n" || eol == "\r\n")
  {
    var text := StripEol(line);
    eol := line[|text|..];
  }

  lemma SplitTargetIs(path: string, query: Option<string>)
    requires '?' !in path
    ensures SplitTarget(path + QueryPart(query)) == (path, query)
  {
    var target := path + QueryPart(query);
    match query {
      case None =>
        assert target == path;
        FindCharNone(target, '?', 0);
      case Some(q) =>
        FindCharIs(target, '?', 0, |path|);
        assert target[..|path|] == path;
        assert target[|path| + 1..] == q;
    }
  }

  lemma SplitTargetJoins(target: string)
    ensures var (path, query) := SplitTarget(target);
            '?' !in path && target == path + QueryPart(query)
  {
    var q := Find(target, "?", 0);
    FindCharNone(target, '?', 0);
    if q.Some? {
      AtChar(target, '?', q.value);
      forall k | 0 <= k < q.value ensures target[k] != '?' {
        AtChar(target, '?', k);
      }
    }
  }

  function Captured(query: Option<string>): string {
    if query.Some? then query.value else ""
  }

  lemma MatchTextIs(text: string, verb: string, path: string, query: Option<string>, version: string)
    requires text == verb + " " + (path + QueryPart(query)) + " " + version
    requires IsVerb(verb) && '?' !in path && (query.Some? ==> OneLine(query.value)) && IsVersion(version)
    ensures MatchText(text) == Some(LineParts(verb, path, Captured(query), version))
  {
    VerbNoSpace(verb);
    LineSlices(text, verb, path + QueryPart(query), version);
    SplitTargetIs(path, query);
  }

  lemma LineSlices(text: string, verb: string, target: string, version: string)
    requires text == verb + " " + target + " " + version && ' ' !in verb && |version| == 8
    ensures Find(text, " ", 0) == Some(|verb|)
    ensures text[..|verb|] == verb && text[|text| - 8..] == version
    ensures text[|verb| + 1..|text| - 9] == target && text[|text| - 9] == ' '
  {
    FindCharIs(text, ' ', 0, |verb|);
  }

  lemma Regroup(verb: string, path: string, q: string, version: string, eol: string)
    ensures verb + " " + path + q + " " + version + eol == (verb + " " + (path + q) + " " + version) + eol
  {
  }

  /** Any decomposition of a line is the one the direct parse finds: there is at most one. */
  lemma MatchLineComplete(line: string, verb: string, path: string, query: Option<string>, version: string, eol: string)
    requires Decomposes(line, verb, path, query, version, eol)
    ensures MatchLine(line) == Some(LineParts(verb, path, Captured(query), version))
  {
    var text := verb + " " + (path + QueryPart(query)) + " " + version;
    Regroup(verb, path, QueryPart(query), version, eol);
    VersionEnd(version);
    assert text[|text| - 1] == version[7];
    StripVersion(text, eol);
    MatchTextIs(text, verb, path, query, version);
  }

  lemma Reassemble(text: string, a: nat, b: nat)
    requires a < b < |text| && text[a] == ' ' && text[b] == ' '
    ensures text == text[..a] + " " + text[a + 1..b] + " " + text[b + 1..]
  {
  }

  lemma MatchTextSound(text: string) returns (query: Option<string>)
    requires MatchText(text).Some?
    ensures var p := MatchText(text).value;
            && text == p.verb + " " + (p.path + QueryPart(query)) + " " + p.version
            && IsVerb(p.verb) && '?' !in p.path && (query.Some? ==> OneLine(query.value)) && IsVersion(p.version)
            && p.query == Captured(query)
  {
    var sp := Find(text, " ", 0).value;
    AtChar(text, ' ', sp);
    Reassemble(text, sp, |text| - 9);
    query := SplitTarget(text[sp + 1..|text| - 9]).1;
    SplitTargetJoins(text[sp + 1..|text| - 9]);
  }

  /** What the direct parse finds is a decomposition. */
  lemma MatchLineSound(line: string) returns (query: Option<string>, eol: string)
    requires MatchLine(line).Some?
    ensures var p := MatchLine(line).value;
            Decomposes(line, p.verb, p.path, query, p.version, eol) && p.query == Captured(query)
  {
    eol := StripRest(line);
    query := MatchTextSound(StripEol(line));
    var p := MatchLine(line).value;
    Regroup(p.verb, p.path, QueryPart(query), p.version, eol);
  }

  /** The line matches the pattern exactly when the direct parse succeeds, and then with the same groups. */
  lemma RequestLineMeaning(line: string, p: LineParts)
    ensures MatchLine(line) == Some(p) <==>
            exists query, eol :: Decomposes(line, p.verb, p.path, query, p.version, eol)
                                 && p.query == Captured(query)
  {
    if MatchLine(line) == Some(p) {
      var query, eol := MatchLineSound(line);
    }
    forall query, eol | Decomposes(line, p.verb, p.path, query, p.version, eol)
                        && p.query == Captured(query)
      ensures MatchLine(line) == Some(p)
    {
      MatchLineComplete(line, p.verb, p.path, query, p.version, eol);
    }
  }

  // ------------------------------------------------- meaning of the two lines

  /** One query piece `key=val`, decoded and inserted; None when it has no '='. */
  function AddParam(req: Request, piece: string): Option<Request> {
    var pos := Find(piece, "=", 0);
    if pos.None? then None
    else Some(req.(params := Insert(req.params, UrlCodec.Decode(piece[..pos.value], true),
                                    UrlCodec.Decode(piece[pos.value + 1..], true))))
  }

  /** All pieces in order; on a piece without '=' the request keeps what was inserted before it. */
  function AddParams(req: Request, pieces: seq<string>): (bool, Request)
    decreases |pieces|
  {
    if |pieces| == 0 then (true, req)
    else
      var next := AddParam(req, pieces[0]);
      if next.None? then (false, req) else AddParams(next.value, pieces[1..])
  }

  /** ParseHttpLine: whether it succeeds, and the request it leaves behind. */
  function ParseLine(req: Request, line: string): (bool, Request) {
    var m := MatchLine(line);
    if m.None? then (false, req)
    else
      var r := req.(verb := Upper(m.value.verb), path := UrlCodec.Decode(m.value.path, false), version := m.value.version);
      AddParams(r, NonEmpty(Pieces(m.value.query, "&", 0)))
  }

  /** ParseHttpHead: `key: val`, the first value of a key wins. */
  function ParseHeader(req: Request, line: string): (bool, Request) {
    var text := StripHead(line);
    var pos := Find(text, ": ", 0);
    if pos.None? then (false, req)
    else (true, req.(headers := Insert(req.headers, text[..pos.value], text[pos.value + 2..])))
  }

  /** Drops a final '\n', then a final '\r'. */
  function StripHead(line: string): string {
    var l := if line != "" && line[|line| - 1] == '\n' then line[..|line| - 1] else line;
    if l != "" && l[|l| - 1] == '\r' then l[..|l| - 1] else l
  }
}
