/**
 Printing a request and parsing it back (RFC 9112, sections 3, 5 and 6.2; RFC 3986, section 2.1).
 Because the parser follows the byte automaton, what holds of one run holds of every chunking.
 */
module HttpRoundTrip {
  import opened Text
  import opened HttpMessage
  import opened HttpAutomaton
  import UrlCodec
  import HttpService

  type Pair = (string, string)

  /** What a client wants to say; Content-Length is added by the printer. */
  datatype Message = Message(verb: string, path: string, query: seq<Pair>, version: string,
                             headers: seq<Pair>, body: string)

  // ------------------------------------------------------------------ printing

  function QueryPiece(kv: Pair): string {
    UrlCodec.Encode(kv.0, true) + "=" + UrlCodec.Encode(kv.1, true)
  }

  function QueryPieces(q: seq<Pair>): (ps: seq<string>)
    ensures |ps| == |q| && forall i :: 0 <= i < |q| ==> ps[i] == QueryPiece(q[i])
  {
    if |q| == 0 then [] else [QueryPiece(q[0])] + QueryPieces(q[1..])
  }

  function Query(q: seq<Pair>): Option<string> {
    if |q| == 0 then None else Some(Join(QueryPieces(q), "&"))
  }

  function RequestLine(m: Message): string {
    m.verb + " " + UrlCodec.Encode(m.path, false) + QueryPart(Query(m.query)) + " " + m.version + "\r\n"
  }

  function HeaderLine(h: Pair): string {
    h.0 + ": " + h.1 + "\r\n"
  }

  function HeaderText(hs: seq<Pair>): string {
    if |hs| == 0 then "" else HeaderLine(hs[0]) + HeaderText(hs[1..])
  }

  function AllHeaders(m: Message): seq<Pair> {
    m.headers + [("Content-Length", Decimal(|m.body|))]
  }

  function Print(m: Message): string {
    RequestLine(m) + (HeaderText(AllHeaders(m)) + ("\r\n" + m.body))
  }

  // ------------------------------------------------------------------- meaning

  /** The pairs as a map in which the first value of a key wins. */
  function FirstWins(start: map<string, string>, kvs: seq<Pair>): map<string, string>
    decreases |kvs|
  {
    if |kvs| == 0 then start else FirstWins(Insert(start, kvs[0].0, kvs[0].1), kvs[1..])
  }

  function Meaning(m: Message): Request {
    Request(m.verb, m.path, m.version, m.body, FirstWins(map[], AllHeaders(m)), FirstWins(map[], m.query))
  }

  predicate Codable(s: string) {
    forall i :: 0 <= i < |s| ==> UrlCodec.RoundTrips(s[i])
  }

  predicate GoodHeader(h: Pair) {
    && Find(h.0, ": ", 0).None? && '\n' !in h.0 && '\n' !in h.1
    && |HeaderLine(h)| <= MAX_LINE
  }

  /** Messages the printed form can carry: percent-encodable text, unambiguous header keys, short lines. */
  predicate Printable(m: Message) {
    && IsVerb(m.verb) && Upper(m.verb) == m.verb && IsVersion(m.version)
    && Codable(m.path)
    && (forall i :: 0 <= i < |m.query| ==> Codable(m.query[i].0) && Codable(m.query[i].1))
    && |RequestLine(m)| <= MAX_LINE
    && (forall i :: 0 <= i < |m.headers| ==> GoodHeader(m.headers[i]) && m.headers[i].0 != "Content-Length")
    && |m.body| < 0x8000_0000_0000_0000
  }

  // -------------------------------------------------------------- query string

  lemma PlainHasNone(s: string, b: bool, c: char)
    requires !UrlCodec.Plain(c)
    ensures c !in UrlCodec.Encode(s, b)
  {
    UrlCodec.EncodedIsPlain(s, b);
  }

  /** One printed piece is read back as its key and value. */
  lemma PieceRoundTrip(req: Request, kv: Pair)
    requires Codable(kv.0) && Codable(kv.1)
    ensures AddParam(req, QueryPiece(kv)) == Some(req.(params := Insert(req.params, kv.0, kv.1)))
  {
    var k, v := UrlCodec.Encode(kv.0, true), UrlCodec.Encode(kv.1, true);
    var piece := QueryPiece(kv);
    PlainHasNone(kv.0, true, '=');
    assert piece[..|k|] == k && piece[|k|] == '=' && piece[|k| + 1..] == v;
    FindAfter(piece, 0, k, '=');
    UrlCodec.UrlRoundTrip(kv.0, true);
    UrlCodec.UrlRoundTrip(kv.1, true);
  }

  lemma {:induction false} PiecesRoundTrip(req: Request, q: seq<Pair>)
    requires forall i :: 0 <= i < |q| ==> Codable(q[i].0) && Codable(q[i].1)
    ensures AddParams(req, QueryPieces(q)) == (true, req.(params := FirstWins(req.params, q)))
    decreases |q|
  {
    if |q| > 0 {
      PieceRoundTrip(req, q[0]);
      assert QueryPieces(q)[1..] == QueryPieces(q[1..]);
      PiecesRoundTrip(req.(params := Insert(req.params, q[0].0, q[0].1)), q[1..]);
    }
  }

  lemma {:induction false} NonEmptyAll(ps: seq<string>)
    requires forall i :: 0 <= i < |ps| ==> ps[i] != ""
    ensures NonEmpty(ps) == ps
  {
    if |ps| > 0 {
      NonEmptyAll(ps[1..]);
    }
  }

  /**
   Joining encoded pairs with '&' and running the parser's split, find and decode steps gives
   exactly the pairs, the first value of a repeated key winning.
   */
  lemma QueryRoundTrip(req: Request, q: seq<Pair>)
    requires forall i :: 0 <= i < |q| ==> Codable(q[i].0) && Codable(q[i].1)
    ensures AddParams(req, NonEmpty(Pieces(Captured(Query(q)), "&", 0))) == (true, req.(params := FirstWins(req.params, q)))
  {
    if |q| == 0 {
      assert Pieces("", "&", 0) == [""];
      NonEmptyCons("", []);
    } else {
      var ps := QueryPieces(q);
      forall i | 0 <= i < |ps| ensures '&' !in ps[i] && ps[i] != "" {
        PlainHasNone(q[i].0, true, '&');
        PlainHasNone(q[i].1, true, '&');
      }
      PiecesJoin("", ps, '&');
      assert "" + Join(ps, "&") == Join(ps, "&");
      NonEmptyAll(ps);
      PiecesRoundTrip(req, q);
    }
  }

  lemma {:induction false} JoinOneLine(ps: seq<string>)
    requires forall i :: 0 <= i < |ps| ==> OneLine(ps[i])
    ensures OneLine(Join(ps, "&"))
  {
    if |ps| > 1 {
      JoinOneLine(ps[1..]);
    }
  }

  lemma QueryOneLine(q: seq<Pair>)
    ensures OneLine(Captured(Query(q)))
  {
    var ps := QueryPieces(q);
    forall i | 0 <= i < |ps| ensures OneLine(ps[i]) {
      PlainHasNone(q[i].0, true, '\n');
      PlainHasNone(q[i].1, true, '\n');
      PlainHasNone(q[i].0, true, '\r');
      PlainHasNone(q[i].1, true, '\r');
    }
    JoinOneLine(ps);
  }

  // -------------------------------------------------------------- request line

  lemma RequestLineRoundTrip(m: Message)
    requires Printable(m)
    ensures ParseLine(BLANK, RequestLine(m)) ==
            (true, BLANK.(verb := m.verb, path := m.path, version := m.version, params := FirstWins(map[], m.query)))
  {
    var path := UrlCodec.Encode(m.path, false);
    PlainHasNone(m.path, false, '?');
    QueryOneLine(m.query);
    MatchLineComplete(RequestLine(m), m.verb, path, Query(m.query), m.version, "\r\n");
    UrlCodec.UrlRoundTrip(m.path, false);
    QueryRoundTrip(BLANK.(verb := m.verb, path := m.path, version := m.version), m.query);
  }

  lemma NoneInSum(a: string, b: string, c: char)
    requires c !in a && c !in b
    ensures c !in a + b
  {
  }

  lemma NoNewlineIn(s: string)
    requires IsVerb(s) || IsVersion(s)
    ensures '\n' !in s
  {
    forall k | 0 <= k < |s| ensures s[k] != '\n' {
      UpperAt(s, k);
    }
  }

  function LineText(m: Message): string {
    m.verb + " " + UrlCodec.Encode(m.path, false) + QueryPart(Query(m.query)) + " " + m.version + "\r"
  }

  lemma NoNewlineInside(m: Message)
    requires Printable(m)
    ensures RequestLine(m) == LineText(m) + "\n" && '\n' !in LineText(m)
  {
    var path := UrlCodec.Encode(m.path, false);
    var q := QueryPart(Query(m.query));
    PlainHasNone(m.path, false, '\n');
    QueryOneLine(m.query);
    NoneInSum("?", Captured(Query(m.query)), '\n');
    NoNewlineIn(m.verb);
    NoNewlineIn(m.version);
    NoneInSum(m.verb, " ", '\n');
    NoneInSum(m.verb + " ", path, '\n');
    NoneInSum(m.verb + " " + path, q, '\n');
    NoneInSum(m.verb + " " + path + q, " ", '\n');
    NoneInSum(m.verb + " " + path + q + " ", m.version, '\n');
    NoneInSum(m.verb + " " + path + q + " " + m.version, "\r", '\n');
    assert RequestLine(m) == LineText(m) + "\n";
  }

  // -------------------------------------------------------------- header lines

  lemma HeaderRoundTrip(req: Request, h: Pair)
    requires GoodHeader(h)
    ensures ParseHeader(req, HeaderLine(h)) == (true, req.(headers := Insert(req.headers, h.0, h.1)))
  {
    var text := h.0 + ": " + h.1;
    var line := HeaderLine(h);
    assert line[..|line| - 1] == text + "\r";
    assert (text + "\r")[..|text|] == text;
    assert StripHead(line) == text;
    assert text[..|h.0|] == h.0;
    forall k | 0 <= k < |h.0| ensures !At(text, ": ", k) {
      if k + 2 <= |h.0| {
        AtPrefix(text, ": ", |h.0|, k);
      } else {
        AtIndex(text, ": ", k, 1);
        assert text[k + 1] == ':';
      }
    }
    assert text[|h.0|..|h.0| + 2] == ": ";
    FindIs(text, ": ", 0, |h.0|);
    assert text[..|h.0|] == h.0 && text[|h.0| + 2..] == h.1;
  }

  lemma {:induction false} HeadersRoundTrip(ctx: Ctx, hs: seq<Pair>, rest: string)
    requires ctx.phase == RECV_HEAD && ctx.statu == 200
    requires forall i :: 0 <= i < |hs| ==> GoodHeader(hs[i])
    ensures Run(Config(ctx, ""), HeaderText(hs) + rest) ==
            Run(Config(ctx.(req := ctx.req.(headers := FirstWins(ctx.req.headers, hs))), ""), rest)
    decreases |hs|
  {
    if |hs| == 0 {
      assert "" + rest == rest;
    } else {
      var h := hs[0];
      var text := h.0 + ": " + h.1 + "\r";
      var more := HeaderText(hs[1..]) + rest;
      assert HeaderLine(h) == text + "\n";
      assert HeaderText(hs) + rest == (text + "\n") + more;
      RunLine(ctx, text, more);
      HeaderRoundTrip(ctx.req, h);
      var next := ctx.(req := ctx.req.(headers := Insert(ctx.req.headers, h.0, h.1)));
      assert OnLine(ctx, HeaderLine(h)) == More(Config(next, ""));
      HeadersRoundTrip(next, hs[1..], rest);
    }
  }

  // ------------------------------------------------------------ Content-Length

  lemma {:induction false} DigitsAppend(s: string, d: char, acc: nat)
    requires IsDigit(d) && forall i :: 0 <= i < |s| ==> IsDigit(s[i])
    ensures DigitsValue(s + [d], acc) == DigitsValue(s, acc) * 10 + (d as int - '0' as int)
    decreases |s|
  {
    if s == "" {
      assert s + [d] == [d] && [d][1..] == "";
    } else {
      assert (s + [d])[1..] == s[1..] + [d];
      DigitsAppend(s[1..], d, acc * 10 + (s[0] as int - '0' as int));
    }
  }

  /** A printed size is all digits and reads back as itself. */
  lemma {:induction false} DecimalRoundTrip(n: nat)
    ensures |Decimal(n)| > 0 && forall i :: 0 <= i < |Decimal(n)| ==> IsDigit(Decimal(n)[i])
    ensures DigitsValue(Decimal(n), 0) == n
  {
    if n >= 10 {
      DecimalRoundTrip(n / 10);
      DigitsAppend(Decimal(n / 10), ('0' as int + n % 10) as char, 0);
    } else {
      assert Decimal(n)[1..] == "";
    }
  }

  lemma {:induction false} DecimalLength(n: nat, k: nat, bound: nat)
    requires k >= 1 && bound == Power10(k) && n < bound
    ensures |Decimal(n)| <= k
    decreases k
  {
    if n >= 10 {
      assert k >= 2;
      DecimalLength(n / 10, k - 1, Power10(k - 1));
    }
  }

  function Power10(k: nat): nat {
    if k == 0 then 1 else 10 * Power10(k - 1)
  }

  lemma StolDecimal(n: nat)
    requires n < 0x8000_0000_0000_0000
    ensures Stol(Decimal(n)) == Some(n)
  {
    DecimalRoundTrip(n);
    assert IsDigit(Decimal(n)[0]);
  }

  lemma {:induction false} FirstWinsKeeps(start: map<string, string>, kvs: seq<Pair>, key: string)
    requires forall i :: 0 <= i < |kvs| ==> kvs[i].0 != key
    ensures key in FirstWins(start, kvs) <==> key in start
    ensures key in start ==> FirstWins(start, kvs)[key] == start[key]
    decreases |kvs|
  {
    if |kvs| > 0 {
      FirstWinsKeeps(Insert(start, kvs[0].0, kvs[0].1), kvs[1..], key);
    }
  }

  lemma {:induction false} FirstWinsConcat(start: map<string, string>, a: seq<Pair>, b: seq<Pair>)
    ensures FirstWins(start, a + b) == FirstWins(FirstWins(start, a), b)
    decreases |a|
  {
    if |a| == 0 {
      assert a + b == b;
    } else {
      assert (a + b)[1..] == a[1..] + b;
      FirstWinsConcat(Insert(start, a[0].0, a[0].1), a[1..], b);
    }
  }

  lemma PrintedLength(m: Message)
    requires Printable(m)
    ensures ContentLength(FirstWins(map[], AllHeaders(m))) == Some(|m.body|)
  {
    var last := ("Content-Length", Decimal(|m.body|));
    FirstWinsConcat(map[], m.headers, [last]);
    FirstWinsKeeps(map[], m.headers, "Content-Length");
    var hs := FirstWins(map[], m.headers);
    assert FirstWins(hs, [last]) == FirstWins(Insert(hs, last.0, last.1), []);
    StolDecimal(|m.body|);
  }

  lemma LengthHeaderIsGood(n: nat)
    requires n < 0x8000_0000_0000_0000
    ensures GoodHeader(("Content-Length", Decimal(n)))
  {
    DecimalRoundTrip(n);
    assert n < 0x8AC7_2304_89E8_0000 == Power10(19) by { Power10Of19(); }
    DecimalLength(n, 19, Power10(19));
    FindSpace();
  }

  lemma Power10Of19()
    ensures Power10(19) == 10_000_000_000_000_000_000
  {
    assert Power10(5) == 100_000;
    assert Power10(10) == 10_000_000_000;
    assert Power10(15) == 1_000_000_000_000_000;
  }

  lemma FindSpace()
    ensures Find("Content-Length", ": ", 0).None?
  {
    var key := "Content-Length";
    forall k: nat ensures !At(key, ": ", k) {
      AtIndex(key, ": ", k, 0);
      assert k < |key| ==> key[k] != ':';
    }
  }

  // ------------------------------------------------------------- the round trip

  lemma BodyRoundTrip(ctx: Ctx, body: string, rest: string)
    requires ctx.phase == RECV_BODY && ctx.req.body == "" && ContentLength(ctx.req.headers) == Some(|body|)
    ensures Resume(BodyVerdict(ctx), body + rest) == Resume(Emit(Done(ctx.req.(body := body))), rest)
  {
    if body == "" {
      assert body + rest == rest;
    } else {
      RunBodyFull(ctx, body, rest, |body|);
      assert "" + body == body;
    }
  }

  lemma BlankLineEndsHead(ctx: Ctx, rest: string)
    requires ctx.phase == RECV_HEAD
    ensures Run(Config(ctx, ""), "\r\n" + rest) == Resume(BodyVerdict(ctx.(phase := RECV_BODY)), rest)
  {
    assert "\r\n" == "\r" + "\n";
    RunLine(ctx, "\r", rest);
  }

  /**
   A printed request, followed by anything, is read as exactly that request; the bytes of the
   next request are left for the next run.
   */
  lemma RequestRoundTrip(m: Message, next: string)
    requires Printable(m)
    ensures Run(START, Print(m) + next) == Resume(Emit(Done(Meaning(m))), next)
  {
    var line, hs := RequestLine(m), AllHeaders(m);
    var tail := "\r\n" + (m.body + next);
    PrintAssoc(line, HeaderText(hs), m.body, next);
    NoNewlineInside(m);
    RunLine(FRESH, LineText(m), HeaderText(hs) + tail);
    RequestLineRoundTrip(m);
    var req := BLANK.(verb := m.verb, path := m.path, version := m.version, params := FirstWins(map[], m.query));
    var ctx := Ctx(200, RECV_HEAD, req);
    assert OnLine(FRESH, line) == More(Config(ctx, ""));
    LengthHeaderIsGood(|m.body|);
    HeadersRoundTrip(ctx, hs, tail);
    PrintedLength(m);
    var ctx' := ctx.(req := req.(headers := FirstWins(map[], hs)));
    BlankLineEndsHead(ctx', m.body + next);
    BodyRoundTrip(ctx'.(phase := RECV_BODY), m.body, next);
  }

  lemma PrintAssoc(line: string, headers: string, body: string, next: string)
    ensures (line + (headers + ("\r\n" + body))) + next == line + (headers + ("\r\n" + (body + next)))
  {
  }

  function PrintAll(ms: seq<Message>): string {
    if |ms| == 0 then "" else Print(ms[0]) + PrintAll(ms[1..])
  }

  function Requests(ms: seq<Message>): seq<Event> {
    if |ms| == 0 then [] else [Done(Meaning(ms[0]))] + Requests(ms[1..])
  }

  /** A pipeline of printed requests comes out as those requests, one by one. */
  lemma {:induction false} PipelineRoundTrip(ms: seq<Message>)
    requires forall i :: 0 <= i < |ms| ==> Printable(ms[i])
    ensures Run(START, PrintAll(ms)) == Out(Requests(ms), Live(START))
    decreases |ms|
  {
    if |ms| > 0 {
      RequestRoundTrip(ms[0], PrintAll(ms[1..]));
      PipelineRoundTrip(ms[1..]);
    }
  }

  /** And that under every cutting of the pipeline into chunks. */
  lemma PipelineInAnyChunks(ms: seq<Message>, chunks: seq<string>)
    requires forall i :: 0 <= i < |ms| ==> Printable(ms[i])
    requires Flatten(chunks) == PrintAll(ms)
    ensures Deliver(START, chunks) == Out(Requests(ms), Live(START))
  {
    PipelineRoundTrip(ms);
    ChunkingIndependence(START, chunks);
  }

  // ------------------------------------------------------------------ responses

  /** A response whose handler set no length carries one that reads back as the size of its body. */
  lemma ResponseLength(req: Request, rsp: HttpService.Response)
    requires "Content-Length" !in rsp.headers && rsp.body != "" && |rsp.body| < 0x8000_0000_0000_0000
    ensures ContentLength(HttpService.Completed(req, rsp).headers) == Some(|rsp.body|)
  {
    StolDecimal(|rsp.body|);
  }

  /** A handler that says nothing about the connection leaves it to the request, which must say keep-alive to keep it. */
  lemma CloseFollowsRequest(site: HttpService.Site, req: Request)
    requires "Connection" !in site.route(req).headers
    ensures HttpService.Closes(site, Done(req)) <==>
            !("Connection" in req.headers && req.headers["Connection"] == "keep-alive")
  {
    HttpService.ClosesExactly(site, Done(req));
  }
}
