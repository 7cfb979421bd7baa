/** HttpRequest and HttpContext: the resumable parser, proved to follow the byte automaton. */
module HttpParser {
  import opened Text
  import opened ByteBuffer
  import opened HttpMessage
  import opened HttpAutomaton
  import UrlCodec

  class HttpRequest {
    var verb: string
    var path: string
    var version: string
    var body: string
    var headers: map<string, string>
    var params: map<string, string>

    function Value(): Request
      reads this
    {
      Request(verb, path, version, body, headers, params)
    }

    constructor ()
      ensures Value() == BLANK
    {
      verb, path, version, body, headers, params := "", "", "HTTP/1.1", "", map[], map[];
    }

    method ReSet()
      modifies this
      ensures Value() == BLANK
    {
      verb, path, version, body := "", "", "HTTP/1.1", "";
      headers, params := map[], map[];
    }

    /** An existing header keeps its first value. */
    method SetHeader(key: string, val: string)
      modifies this`headers
      ensures key in headers && headers[key] == if key in old(headers) then old(headers)[key] else val
      ensures headers - {key} == old(headers) - {key}
      ensures headers == Insert(old(headers), key, val)
    {
      if key !in headers {
        headers := headers[key := val];
      }
    }

    method SetParam(key: string, val: string)
      modifies this`params
      ensures key in params && params[key] == if key in old(params) then old(params)[key] else val
      ensures params - {key} == old(params) - {key}
      ensures params == Insert(old(params), key, val)
    {
      if key !in params {
        params := params[key := val];
      }
    }
  }

  /**
   Everything that is still to come out of a context and a buffer: the events, and where
   parsing ends. Every parsing step leaves it unchanged.
   */
  ghost function Future(ctx: Ctx, buf: string): Out {
    match ctx.phase
    case RECV_LINE => Run(Config(ctx, ""), buf)
    case RECV_HEAD => Run(Config(ctx, ""), buf)
    case RECV_BODY => Resume(BodyVerdict(ctx), buf)
    case RECV_OVER => Resume(Emit(Done(ctx.req)), buf)
    case RECV_ERROR => Resume(Emit(Bad(ctx.statu, ctx.req)), buf)
  }

  /** A context in which a delivery may start. */
  ghost predicate Ready(ctx: Ctx) {
    Resting(Config(ctx, ""))
  }

  /** A context in the middle of a delivery. */
  ghost predicate Sane(ctx: Ctx) {
    match ctx.phase
    case RECV_LINE => ctx.statu == 200 && ctx.req.body == ""
    case RECV_HEAD => ctx.statu == 200 && ctx.req.body == ""
    case RECV_BODY => ctx.statu == 200 && (ctx.req.body == "" || Ready(ctx))
    case RECV_OVER => ctx.statu == 200
    case RECV_ERROR => ctx.statu == 400 || ctx.statu == 414
  }

  /** How one turn of the header loop ends: with a header, with the blank line, or by returning. */
  datatype HeadStep = NextLine | BlankLine | Leave(ok: bool)

  class HttpContext {
    var respStatu: int
    var recvStatu: Phase
    const request: HttpRequest

    function Value(): Ctx
      reads this, request
    {
      Ctx(respStatu, recvStatu, request.Value())
    }

    constructor ()
      ensures Value() == FRESH && fresh(request)
    {
      respStatu, recvStatu := 200, RECV_LINE;
      request := new HttpRequest();
    }

    method ReSet()
      modifies this, request
      ensures Value() == FRESH
    {
      respStatu := 200;
      recvStatu := RECV_LINE;
      request.ReSet();
    }

    method Fail(statu: int)
      modifies this
      ensures respStatu == statu && recvStatu == RECV_ERROR
    {
      recvStatu := RECV_ERROR;
      respStatu := statu;
    }

    method ParseHttpLine(line: string) returns (ok: bool)
      modifies this, request
      ensures var (good, r) := ParseLine(old(request.Value()), line);
              ok == good && Value() == if good then old(Value()).(req := r) else Ctx(400, RECV_ERROR, r)
    {
      var m := MatchLine(line);
      if m.None? {
        Fail(400);
        return false;
      }
      request.verb := Upper(m.value.verb);
      request.path := UrlCodec.UrlDecode(m.value.path, false);
      request.version := m.value.version;
      var pieces, count := Split(m.value.query, "&", []);
      assert [] + NonEmpty(Pieces(m.value.query, "&", 0)) == NonEmpty(Pieces(m.value.query, "&", 0));
      ok := ParseQuery(pieces);
    }

    /** The loop of ParseHttpLine over the pieces of the query string. */
    method ParseQuery(pieces: seq<string>) returns (ok: bool)
      modifies this, request`params
      ensures var (good, r) := AddParams(old(request.Value()), pieces);
              ok == good && Value() == if good then old(Value()).(req := r) else Ctx(400, RECV_ERROR, r)
    {
      ghost var start := request.Value();
      assert pieces[0..] == pieces;
      for i := 0 to |pieces|
        invariant AddParams(request.Value(), pieces[i..]) == AddParams(start, pieces)
        invariant respStatu == old(respStatu) && recvStatu == old(recvStatu)
      {
        SliceTail(pieces, i, 1);
        var str := pieces[i];
        var pos := Find(str, "=", 0);
        if pos.None? {
          Fail(400);
          return false;
        }
        var key := UrlCodec.UrlDecode(str[..pos.value], true);
        var val := UrlCodec.UrlDecode(str[pos.value + 1..], true);
        request.SetParam(key, val);
      }
      ok := true;
    }

    method ParseHttpHead(line: string) returns (ok: bool)
      requires line != ""
      modifies this, request`headers
      ensures var (good, r) := ParseHeader(old(request.Value()), line);
              ok == good && Value() == if good then old(Value()).(req := r) else Ctx(400, RECV_ERROR, r)
    {
      var text := line;
      if text[|text| - 1] == '\n' {
        text := text[..|text| - 1];
      }
      if text != "" && text[|text| - 1] == '\r' {
        text := text[..|text| - 1];
      }
      assert text == StripHead(line);
      var pos := Find(text, ": ", 0);
      if pos.None? {
        Fail(400);
        return false;
      }
      var key := text[..pos.value];
      var val := text[pos.value + 2..];
      request.SetHeader(key, val);
      ok := true;
    }

    /** No complete line is readable: wait for more, or give up when too much has piled up. */
    method AwaitLine(buf: Buffer) returns (ok: bool)
      requires buf.Valid() && InLines(Value()) && Sane(Value()) && '\n' !in buf.Readable()
      modifies this
      ensures Sane(Value()) && Future(Value(), buf.Readable()) == old(Future(Value(), buf.Readable()))
      ensures ok ==> Value() == old(Value()) && Resting(Config(Value(), buf.Readable()))
      ensures !ok ==> recvStatu == RECV_ERROR
    {
      ghost var s := buf.Readable();
      RunPartial(Value(), "", s);
      assert "" + s == s;
      if buf.ReadAbleSize() > MAX_LINE {
        Fail(414);
        return false;
      }
      ok := true;
    }

    method RecvHttpLine(buf: Buffer) returns (ok: bool)
      requires buf.Valid() && Sane(Value())
      modifies this, request, buf`readerIdx
      ensures buf.Valid() && Sane(Value())
      ensures Future(Value(), buf.Readable()) == old(Future(Value(), buf.Readable()))
      ensures old(recvStatu) != RECV_LINE ==> Value() == old(Value()) && buf.Readable() == old(buf.Readable())
      ensures |buf.Readable()| <= old(|buf.Readable()|)
      ensures recvStatu == RECV_LINE ==> Resting(Config(Value(), buf.Readable()))
      ensures old(recvStatu) == RECV_LINE && recvStatu != RECV_LINE ==> recvStatu == RECV_ERROR || recvStatu == RECV_HEAD
      ensures recvStatu == RECV_HEAD && old(recvStatu) == RECV_LINE ==> |buf.Readable()| < old(|buf.Readable()|)
    {
      if recvStatu != RECV_LINE {
        return false;
      }
      ghost var s, ctx := buf.Readable(), Value();
      var line := buf.GetLineAndPop();
      if |line| == 0 {
        assert buf.Readable() == s;
        ok := AwaitLine(buf);
        return;
      }
      ghost var rest := buf.Readable();
      assert line == line[..|line| - 1] + "\n";
      RunLine(ctx, line[..|line| - 1], rest);
      if |line| > MAX_LINE {
        Fail(414);
        return false;
      }
      ParseLineKeepsBody(ctx.req, line);
      ok := ParseHttpLine(line);
      if !ok {
        return false;
      }
      recvStatu := RECV_HEAD;
    }

    method RecvHttpHead(buf: Buffer) returns (ok: bool)
      requires buf.Valid() && Sane(Value())
      modifies this, request, buf`readerIdx
      ensures buf.Valid() && Sane(Value())
      ensures Future(Value(), buf.Readable()) == old(Future(Value(), buf.Readable()))
      ensures old(recvStatu) != RECV_HEAD ==> Value() == old(Value()) && buf.Readable() == old(buf.Readable())
      ensures |buf.Readable()| <= old(|buf.Readable()|)
      ensures recvStatu == RECV_HEAD ==> Resting(Config(Value(), buf.Readable()))
      ensures old(recvStatu) == RECV_HEAD && recvStatu != RECV_HEAD ==> recvStatu == RECV_ERROR || recvStatu == RECV_BODY
      ensures recvStatu == RECV_BODY && old(recvStatu) == RECV_HEAD ==>
                |buf.Readable()| < old(|buf.Readable()|) && request.body == ""
    {
      if recvStatu != RECV_HEAD {
        return false;
      }
      while true
        invariant buf.Valid() && Sane(Value()) && recvStatu == RECV_HEAD
        invariant Future(Value(), buf.Readable()) == old(Future(Value(), buf.Readable()))
        invariant |buf.Readable()| <= old(|buf.Readable()|)
        decreases buf.ReadAbleSize()
      {
        var step := RecvHeadLine(buf);
        if step.Leave? {
          return step.ok;
        }
        if step.BlankLine? {
          break;
        }
      }
      recvStatu := RECV_BODY;
      ok := true;
    }

    /** The body of that loop. */
    method RecvHeadLine(buf: Buffer) returns (step: HeadStep)
      requires buf.Valid() && Sane(Value()) && recvStatu == RECV_HEAD
      modifies this, request, buf`readerIdx
      ensures buf.Valid() && |buf.Readable()| <= old(|buf.Readable()|)
      ensures !step.BlankLine? ==> Sane(Value()) && Future(Value(), buf.Readable()) == old(Future(Value(), buf.Readable()))
      ensures step.NextLine? ==> recvStatu == RECV_HEAD && |buf.Readable()| < old(|buf.Readable()|)
      ensures step.BlankLine? ==>
                && Value() == old(Value()) && |buf.Readable()| < old(|buf.Readable()|)
                && Future(Value().(phase := RECV_BODY), buf.Readable()) == old(Future(Value(), buf.Readable()))
      ensures step.Leave? ==>
                recvStatu == RECV_ERROR || (recvStatu == RECV_HEAD && Resting(Config(Value(), buf.Readable())))
    {
      ghost var s, ctx := buf.Readable(), Value();
      var line := buf.GetLineAndPop();
      if |line| == 0 {
        assert buf.Readable() == s;
        var ok := AwaitLine(buf);
        return Leave(ok);
      }
      ghost var rest := buf.Readable();
      assert line == line[..|line| - 1] + "\n";
      RunLine(ctx, line[..|line| - 1], rest);
      if |line| > MAX_LINE {
        Fail(414);
        return Leave(false);
      }
      if line == "\n" || line == "\r\n" {
        return BlankLine;
      }
      var ok := ParseHttpHead(line);
      step := if ok then NextLine else Leave(false);
    }

    /** `threw` stands for the exception std::stol raises on a malformed Content-Length. */
    method RecvHttpBody(buf: Buffer) returns (threw: bool)
      requires buf.Valid() && Sane(Value())
      modifies this, request`body, buf`readerIdx
      ensures buf.Valid()
      ensures threw ==> Future(old(Value()), old(buf.Readable())) == Out([Threw(old(request.Value()))], Stopped)
      ensures !threw ==> Sane(Value()) && Future(Value(), buf.Readable()) == old(Future(Value(), buf.Readable()))
      ensures old(recvStatu) != RECV_BODY ==> !threw && Value() == old(Value()) && buf.Readable() == old(buf.Readable())
      ensures !threw && recvStatu == RECV_BODY ==> Resting(Config(Value(), buf.Readable()))
      ensures !threw && old(recvStatu) == RECV_BODY ==> recvStatu == RECV_BODY || recvStatu == RECV_OVER
      ensures !threw && old(recvStatu) == RECV_BODY && recvStatu == RECV_OVER && old(Ready(Value())) ==>
                |buf.Readable()| < old(|buf.Readable()|)
      ensures |buf.Readable()| <= old(|buf.Readable()|)
    {
      if recvStatu != RECV_BODY {
        return false;
      }
      var contentLength := ContentLength(request.headers);
      if contentLength.None? {
        return true;
      }
      threw := false;
      if contentLength.value == 0 {
        recvStatu := RECV_OVER;
        return;
      }
      ghost var s, ctx := buf.Readable(), Value();
      var realLen := contentLength.value - |request.body|;
      if buf.ReadAbleSize() >= realLen {
        assert s == s[..realLen] + s[realLen..];
        RunBodyFull(ctx, s[..realLen], s[realLen..], contentLength.value);
        TakeBody(buf, realLen);
        recvStatu := RECV_OVER;
        return;
      }
      RunBody(ctx, s, contentLength.value);
      TakeBody(buf, buf.ReadAbleSize());
    }

    /** Moves the first readable bytes to the end of the body. */
    method TakeBody(buf: Buffer, len: nat)
      requires buf.Valid() && len <= |buf.Readable()|
      modifies request`body, buf`readerIdx
      ensures buf.Valid() && buf.Readable() == old(buf.Readable())[len..]
      ensures request.body == old(request.body) + old(buf.Readable())[..len]
    {
      var part := buf.ReadAsString(len);
      request.body := request.body + part;
      buf.MoveReadOffset(len);
    }

    /**
     One call of the switch without breaks. It never changes the future; when it returns, a
     request or an error is complete, or the buffer is at rest until more bytes arrive.
     */
    method RecvHttpRequest(buf: Buffer) returns (threw: bool)
      requires buf.Valid() && Ready(Value())
      modifies this, request, buf`readerIdx
      ensures buf.Valid()
      ensures threw ==> exists r :: old(Future(Value(), buf.Readable())) == Out([Threw(r)], Stopped)
      ensures !threw ==> Sane(Value()) && Future(Value(), buf.Readable()) == old(Future(Value(), buf.Readable()))
      ensures !threw ==> recvStatu == RECV_OVER || recvStatu == RECV_ERROR || Resting(Config(Value(), buf.Readable()))
      ensures !threw && recvStatu == RECV_OVER ==> |buf.Readable()| < old(|buf.Readable()|)
      ensures |buf.Readable()| <= old(|buf.Readable()|)
    {
      var entry := recvStatu;
      if entry == RECV_LINE {
        var _ := RecvHttpLine(buf);
      }
      if entry == RECV_LINE || entry == RECV_HEAD {
        var _ := RecvHttpHead(buf);
      }
      threw := RecvHttpBody(buf);
    }
  }
}
