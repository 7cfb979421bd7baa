/**
 HttpServer::OnMessage and the Connection that feeds it. The two call each other: a response
 that closes the connection shuts it down, and shutting down parses what is still buffered.
 */
module HttpService {
  import opened Text
  import opened ByteBuffer
  import opened HttpMessage
  import opened HttpAutomaton
  import opened HttpParser

  datatype Response = Response(statu: int, body: string, headers: map<string, string>, redirect: Option<string>)

  /** The header fields WriteReponse adds; fields the handler set are kept. */
  function Completed(req: Request, rsp: Response): Response {
    var h1 := Insert(rsp.headers, "Connection", if WantsClose(req.headers) then "close" else "keep-alive");
    var h2 := if rsp.body != "" then Insert(h1, "Content-Length", Decimal(|rsp.body|)) else h1;
    var h3 := if rsp.body != "" then Insert(h2, "Content-Type", "application/octet-stream") else h2;
    var h4 := if rsp.redirect.Some? then Insert(h3, "Location", rsp.redirect.value) else h3;
    rsp.(headers := h4)
  }

  /** h has this value for the key, or none. */
  ghost predicate Field(h: map<string, string>, key: string, val: Option<string>) {
    if val.Some? then key in h && h[key] == val.value else key !in h
  }

  /** A field the handler set stays; any other is as given. */
  function Given(h: map<string, string>, key: string, val: Option<string>): Option<string> {
    if key in h then Some(h[key]) else val
  }

  /** Only this value of the Connection field asks for the connection to be kept. */
  predicate KeepsAlive(h: map<string, string>) {
    "Connection" in h && h["Connection"] == "keep-alive"
  }

  /** No other field is touched. */
  lemma CompletedKeeps(req: Request, rsp: Response, key: string)
    requires key !in {"Connection", "Content-Length", "Content-Type", "Location"}
    ensures Field(Completed(req, rsp).headers, key, Given(rsp.headers, key, None))
  {
  }

  /** The fields of a completed response, one by one; all else is as the handler left it. */
  lemma CompletedExactly(req: Request, rsp: Response)
    ensures var full := Completed(req, rsp);
            && full.(headers := rsp.headers) == rsp
            && var h, h' := rsp.headers, full.headers;
            && Field(h', "Connection", Given(h, "Connection", Some(if KeepsAlive(req.headers) then "keep-alive" else "close")))
            && Field(h', "Content-Length",
                     Given(h, "Content-Length", if rsp.body == "" then None else Some(Decimal(|rsp.body|))))
            && Field(h', "Content-Type",
                     Given(h, "Content-Type", if rsp.body == "" then None else Some("application/octet-stream")))
            && Field(h', "Location", Given(h, "Location", rsp.redirect))
  {
    CompletedConnection(req, rsp);
    CompletedLength(req, rsp);
    CompletedType(req, rsp);
    CompletedLocation(req, rsp);
    hide Field, Given, WantsClose, Decimal;
  }

  lemma CompletedConnection(req: Request, rsp: Response)
    ensures Field(Completed(req, rsp).headers, "Connection",
                  Given(rsp.headers, "Connection", Some(if KeepsAlive(req.headers) then "keep-alive" else "close")))
  {
    assert |"Connection"| == 10 && |"Content-Length"| == 14 && |"Content-Type"| == 12 && |"Location"| == 8;
  }

  lemma CompletedLength(req: Request, rsp: Response)
    ensures Field(Completed(req, rsp).headers, "Content-Length",
                  Given(rsp.headers, "Content-Length", if rsp.body == "" then None else Some(Decimal(|rsp.body|))))
  {
    hide WantsClose, Decimal;
    assert |"Connection"| == 10 && |"Content-Length"| == 14 && |"Content-Type"| == 12 && |"Location"| == 8;
  }

  lemma CompletedType(req: Request, rsp: Response)
    ensures Field(Completed(req, rsp).headers, "Content-Type",
                  Given(rsp.headers, "Content-Type", if rsp.body == "" then None else Some("application/octet-stream")))
  {
    hide WantsClose, Decimal;
    assert |"Connection"| == 10 && |"Content-Length"| == 14 && |"Content-Type"| == 12 && |"Location"| == 8;
  }

  lemma CompletedLocation(req: Request, rsp: Response)
    ensures Field(Completed(req, rsp).headers, "Location", Given(rsp.headers, "Location", rsp.redirect))
  {
    hide WantsClose, Decimal;
    assert |"Connection"| == 10 && |"Content-Length"| == 14 && |"Content-Type"| == 12 && |"Location"| == 8;
  }

  /** The parts of a server that are parameters here: routing, the error page, and header order. */
  datatype Site = Site(route: Request -> Response, errorPage: int -> string, render: (string, Response) -> string)

  function ErrorResponse(site: Site, statu: int): Response {
    Response(statu, site.errorPage(statu), map["Content-Type" := "text/html"], None)
  }

  /** The bytes that answer one event. */
  function Answer(site: Site, e: Event): string {
    match e
    case Done(req) => site.render(req.version, Completed(req, site.route(req)))
    case Bad(statu, req) => site.render(req.version, Completed(req, ErrorResponse(site, statu)))
    case Threw(_) => ""
  }

  function Answers(site: Site, es: seq<Event>): string {
    if |es| == 0 then "" else Answer(site, es[0]) + Answers(site, es[1..])
  }

  lemma AnswersCons(site: Site, out: string, e: Event, es: seq<Event>)
    ensures out + Answers(site, [e] + es) == (out + Answer(site, e)) + Answers(site, es)
  {
    assert ([e] + es)[1..] == es;
    assert out + (Answer(site, e) + Answers(site, es)) == (out + Answer(site, e)) + Answers(site, es);
  }

  /** The event ends the connection: an error, or a response that says close. */
  predicate Closes(site: Site, e: Event) {
    match e
    case Done(req) => WantsClose(Completed(req, site.route(req)).headers)
    case Bad(_, _) => true
    case Threw(_) => false
  }

  /**
   An answered request ends the connection unless the response says keep-alive, or has no Connection
   field from its handler and the request says so; an error always does.
   */
  lemma ClosesExactly(site: Site, e: Event)
    ensures match e
            case Done(req) =>
              var h := site.route(req).headers;
              Closes(site, e) <==>
              !(if "Connection" in h then h["Connection"] == "keep-alive"
                else "Connection" in req.headers && req.headers["Connection"] == "keep-alive")
            case Bad(_, _) => Closes(site, e)
            case Threw(_) => !Closes(site, e)
  {
    if e.Done? {
      CompletedExactly(e.req, site.route(e.req));
    }
  }

  /** These bytes are an error response: that status, the page for it as HTML, and nothing of its own but that. */
  ghost predicate IsErrorReply(site: Site, statu: int, req: Request, bytes: string) {
    exists rsp: Response ::
      && bytes == site.render(req.version, rsp)
      && rsp.statu == statu && rsp.body == site.errorPage(statu) && rsp.redirect == None
      && Field(rsp.headers, "Content-Type", Some("text/html"))
      && Field(rsp.headers, "Connection", Some(if KeepsAlive(req.headers) then "keep-alive" else "close"))
      && Field(rsp.headers, "Content-Length", if rsp.body == "" then None else Some(Decimal(|rsp.body|)))
      && rsp.headers.Keys <= {"Content-Type", "Connection", "Content-Length"}
  }

  lemma ErrorReplyExactly(site: Site, statu: int, req: Request)
    ensures IsErrorReply(site, statu, req, Answer(site, Bad(statu, req)))
  {
    var page := ErrorResponse(site, statu);
    var rsp := Completed(req, page);
    CompletedExactly(req, page);
    forall key | key in rsp.headers ensures key in {"Content-Type", "Connection", "Content-Length"} {
      if key !in {"Connection", "Content-Length", "Content-Type", "Location"} {
        CompletedKeeps(req, page, key);
      }
    }
    assert Answer(site, Bad(statu, req)) == site.render(req.version, rsp);
  }

  predicate AnyCloses(site: Site, es: seq<Event>) {
    |es| > 0 && (Closes(site, es[0]) || AnyCloses(site, es[1..]))
  }

  lemma {:induction false} AnyClosesExactly(site: Site, es: seq<Event>)
    ensures AnyCloses(site, es) <==> exists e :: e in es && Closes(site, e)
  {
    if es != [] {
      AnyClosesExactly(site, es[1..]);
      if AnyCloses(site, es[1..]) {
        var e :| e in es[1..] && Closes(site, e);
        assert e in es;
      } else {
        assert es[0] in es && forall e :: e in es ==> e == es[0] || e in es[1..];
      }
    }
  }

  lemma AnyClosesConcat(site: Site, a: seq<Event>, b: seq<Event>)
    ensures AnyCloses(site, a + b) <==> AnyCloses(site, a) || AnyCloses(site, b)
  {
    AnyClosesExactly(site, a);
    AnyClosesExactly(site, b);
    AnyClosesExactly(site, a + b);
    assert forall e :: e in a + b <==> e in a || e in b;
  }

  lemma AnyClosesCons(site: Site, e: Event, es: seq<Event>)
    ensures AnyCloses(site, [e] + es) <==> Closes(site, e) || AnyCloses(site, es)
  {
    assert ([e] + es)[1..] == es;
  }

  /** The status after these events: closing ones leave the connection half-closed. */
  function StatuAfter(site: Site, statu: ConnStatu, es: seq<Event>): ConnStatu {
    if AnyCloses(site, es) then DISCONNECTING else statu
  }

  datatype ConnStatu = DISCONNECTED | CONNECTING | CONNECTED | DISCONNECTING

  lemma {:induction false} AnswersConcat(site: Site, a: seq<Event>, b: seq<Event>)
    ensures Answers(site, a + b) == Answers(site, a) + Answers(site, b)
    decreases |a|
  {
    if |a| == 0 {
      assert a + b == b;
    } else {
      hide Answer;
      assert (a + b)[1..] == a[1..] + b;
      AnswersConcat(site, a[1..], b);
      Assoc(Answer(site, a[0]), Answers(site, a[1..]), Answers(site, b));
    }
  }

  /**
   What epoll, recv and send report for one dispatch: the ready events, the bytes received
   (None for a receive error), and how many bytes the socket would take (negative for an error).
   */
  datatype Dispatch = Dispatch(readable: bool, writable: bool, error: bool, hangup: bool,
                               received: Option<string>, room: int)

  /** An error or a hang-up that is handled: one event besides reading is, and writing comes first. */
  predicate Hung(d: Dispatch) {
    !d.writable && (d.error || d.hangup)
  }

  /** The chunks a sequence of dispatches delivers. */
  function Chunks(evs: seq<Dispatch>): seq<string> {
    if |evs| == 0 then []
    else if evs[0].readable && evs[0].received.Some? then [evs[0].received.value] + Chunks(evs[1..])
    else Chunks(evs[1..])
  }

  /** In order, what each dispatch that is readable and not in error received. */
  lemma {:induction false} ChunksExactly(evs: seq<Dispatch>, d: Dispatch)
    ensures Chunks([]) == []
    ensures Chunks(evs + [d]) == Chunks(evs) + match d.received case Some(c) => if d.readable then [c] else [] case None => []
    decreases |evs|
  {
    if |evs| == 0 {
      assert evs + [d] == [d] && [d][1..] == [];
    } else {
      assert (evs + [d])[1..] == evs[1..] + [d];
      ChunksExactly(evs[1..], d);
    }
  }

  /** Where a delivery starts from: the log, the accepted output and the status. */
  datatype Mark = Mark(log: seq<Event>, accepted: string, statu: ConnStatu)

  /** How much of `len` bytes a socket with so much room takes; an error takes nothing. */
  function Taken(room: int, len: int): (n: nat)
    ensures 0 <= len ==> n <= len
  {
    if room < 0 || len < 0 then 0 else if room < len then room else len
  }

  /** What one dispatch brings out of the parser. */
  ghost function Brought(from: Config, d: Dispatch): Out {
    if d.readable && d.received.Some? then Run(from, d.received.value) else Out([], Live(from))
  }

  /** Delivering the first dispatch and then the others. */
  lemma DeliverStep(from: Config, evs: seq<Dispatch>, log0: seq<Event>, all: Out, next: Config)
    requires evs != []
    requires log0 + Deliver(from, Chunks(evs)).events == all.events && Deliver(from, Chunks(evs)).last == all.last
    requires var o := Brought(from, evs[0]);
             (o.last.Live? ==> next == o.last.config) && (Failed(o) ==> next == START)
    ensures var o := Brought(from, evs[0]);
            var p := Deliver(next, Chunks(evs[1..]));
            if Crashed(o) then all.events == log0 + o.events && Crashed(all)
            else (log0 + o.events) + p.events == all.events && p.last == all.last
  {
    var d := evs[0];
    var rest := Chunks(evs[1..]);
    if d.readable && d.received.Some? {
      assert Chunks(evs) == [d.received.value] + rest;
      DeliverCons(from, d.received.value, rest, log0, all, next);
    } else {
      assert log0 + [] == log0;
    }
  }

  lemma DeliverCons(from: Config, c: string, rest: seq<string>, log0: seq<Event>, all: Out, next: Config)
    requires var d := Deliver(from, [c] + rest); log0 + d.events == all.events && d.last == all.last
    requires var o := Run(from, c); (o.last.Live? ==> next == o.last.config) && (Failed(o) ==> next == START)
    ensures var o := Run(from, c);
            var p := Deliver(next, rest);
            if Crashed(o) then all.events == log0 + o.events && Crashed(all)
            else (log0 + o.events) + p.events == all.events && p.last == all.last
  {
    var o := Run(from, c);
    assert ([c] + rest)[1..] == rest;
    if Crashed(o) {
      assert all.events[|all.events| - 1] == o.events[|o.events| - 1];
    } else {
      var p := Deliver(next, rest);
      assert (log0 + o.events) + p.events == log0 + (o.events + p.events);
    }
  }

  /**
   The run of a connection so far: parser, handled events, bytes sent, whether it is half-closed, and
   whether an exception ended it.
   */
  datatype Tally = Tally(parser: Config, log: seq<Event>, sent: nat, halfClosed: bool, crashed: bool)

  const NEW_TALLY := Tally(START, [], 0, false, false)

  /** A receive error was reported. */
  predicate ReceiveError(d: Dispatch) {
    d.readable && d.received.None?
  }

  lemma BroughtRests(from: Config, d: Dispatch)
    requires Resting(from)
    ensures var o := Brought(from, d); o.last.Live? ==> Resting(o.last.config)
  {
    if d.readable && d.received.Some? {
      RunRests(from, d.received.value);
    }
  }

  /** One more dispatch: what is read is handled and answered, then the socket takes what it has room for. */
  ghost function Next(site: Site, t: Tally, d: Dispatch): Tally {
    var o := Brought(t.parser, d);
    var log := t.log + o.events;
    var halfClosed := t.halfClosed || ReceiveError(d) || AnyCloses(site, o.events);
    if t.crashed then t
    else if Crashed(o) then t.(log := log, halfClosed := halfClosed, crashed := true)
    else
      Tally(if o.last.Live? then o.last.config else START, log,
            if d.writable then t.sent + Taken(d.room, |Answers(site, log)| - t.sent) else t.sent, halfClosed, false)
  }

  ghost function Served(site: Site, t: Tally, evs: seq<Dispatch>): Tally
    decreases |evs|
  {
    if |evs| == 0 then t else Served(site, Next(site, t, evs[0]), evs[1..])
  }

  lemma {:induction false} CrashStays(site: Site, t: Tally, evs: seq<Dispatch>)
    requires t.crashed
    ensures Served(site, t, evs) == t
    decreases |evs|
  {
    if |evs| > 0 {
      CrashStays(site, t, evs[1..]);
    }
  }

  /** The events of the run are those of delivering the chunks. */
  lemma {:induction false} ServedIsDelivery(site: Site, t: Tally, evs: seq<Dispatch>, all: Out)
    requires !t.crashed && Resting(t.parser)
    requires var d := Deliver(t.parser, Chunks(evs)); t.log + d.events == all.events && d.last == all.last
    ensures var u := Served(site, t, evs);
            && u.log == all.events && (u.crashed <==> Crashed(all))
            && (!u.crashed ==> all.last == Live(u.parser))
    decreases |evs|
  {
    if |evs| == 0 {
      assert t.log + [] == t.log;
    } else {
      var next := Next(site, t, evs[0]);
      DeliverStep(t.parser, evs, t.log, all, next.parser);
      if next.crashed {
        CrashStays(site, next, evs[1..]);
      } else {
        BroughtRests(t.parser, evs[0]);
        ServedIsDelivery(site, next, evs[1..], all);
      }
    }
  }

  /** The connection is half-closed by a receive error or by an event that closes, and by nothing else. */
  lemma {:induction false} HalfClosedExactly(site: Site, t: Tally, evs: seq<Dispatch>, before: bool)
    requires !t.crashed && (t.halfClosed <==> before || AnyCloses(site, t.log))
    ensures var u := Served(site, t, evs);
            !u.crashed ==> (u.halfClosed <==> before || (exists d :: d in evs && ReceiveError(d)) || AnyCloses(site, u.log))
    decreases |evs|
  {
    if |evs| > 0 {
      var d, rest := evs[0], evs[1..];
      var o, next := Brought(t.parser, d), Next(site, t, d);
      AnyClosesConcat(site, t.log, o.events);
      assert forall c :: c in evs <==> c == d || c in rest;
      if next.crashed {
        CrashStays(site, next, rest);
      } else {
        HalfClosedExactly(site, next, rest, before || ReceiveError(d));
      }
    }
  }

  class Connection {
    const site: Site
    const inBuffer: Buffer
    const outBuffer: Buffer
    const context: HttpContext
    var statu: ConnStatu
    var readInterest: bool   // EPOLLIN in the channel's event mask
    var writeInterest: bool  // EPOLLOUT in the channel's event mask
    var releases: nat        // ReleaseInLoop tasks queued so far

    ghost var log: seq<Event>             // events handled so far
    ghost var accepted: string            // everything SendInLoop took
    ghost var sent: string                // everything the socket took
    ghost var unsentAtRelease: seq<nat>   // accepted bytes not yet sent, at each release asked for by shutdown or drain

    /**
     Output is conserved; unsent output is always waited for; and a shutdown or a drained
     buffer asks for release only when everything accepted has been sent.
     */
    ghost predicate Valid()
      reads this, inBuffer, outBuffer, inBuffer.data, outBuffer.data
    {
      && inBuffer != outBuffer && inBuffer.data != outBuffer.data
      && inBuffer.Valid() && outBuffer.Valid()
      && accepted == sent + outBuffer.Readable()
      && (outBuffer.Readable() != "" ==> writeInterest)
      && forall i :: 0 <= i < |unsentAtRelease| ==> unsentAtRelease[i] == 0
    }

    /** A half-closed connection with nothing left to send has been handed to the release queue. */
    ghost predicate NotStuck()
      requires outBuffer.Valid()
      reads this, outBuffer, outBuffer.data
    {
      statu == DISCONNECTING && outBuffer.Readable() == "" ==> releases > 0
    }

    /** Where the parser stands: its context and the bytes it has not consumed. */
    ghost function Parser(): Config
      requires inBuffer.Valid()
      reads this, inBuffer, inBuffer.data, context, context.request
    {
      Config(context.Value(), inBuffer.Readable())
    }

    /** The output of parsing everything buffered from here. */
    ghost function Pending(): Out
      requires inBuffer.Valid()
      reads this, inBuffer, inBuffer.data, context, context.request
    {
      Run(Config(context.Value(), ""), inBuffer.Readable())
    }

    constructor (site: Site)
      ensures Valid() && fresh(inBuffer) && fresh(outBuffer) && fresh(context) && fresh(context.request)
      ensures fresh(inBuffer.data) && fresh(outBuffer.data)
      ensures this.site == site && statu == CONNECTING && Parser() == START
      ensures log == [] && accepted == "" && releases == 0 && unsentAtRelease == []
    {
      this.site := site;
      inBuffer := new Buffer();
      outBuffer := new Buffer();
      context := new HttpContext();
      statu := CONNECTING;
      readInterest, writeInterest := false, false;
      releases := 0;
      log, accepted, sent, unsentAtRelease := [], "", "", [];
    }

    method EstablishedInLoop()
      requires statu == CONNECTING
      modifies this`statu, this`readInterest
      ensures statu == CONNECTED && readInterest
    {
      statu := CONNECTED;
      readInterest := true;
    }

    /** Queues ReleaseInLoop; `orderly` marks the shutdown and drain paths. */
    method Release(ghost orderly: bool)
      requires Valid() && (orderly ==> outBuffer.Readable() == "")
      modifies this`releases, this`unsentAtRelease
      ensures Valid() && releases == old(releases) + 1
      ensures unsentAtRelease == if orderly then old(unsentAtRelease) + [|accepted| - |sent|] else old(unsentAtRelease)
    {
      releases := releases + 1;
      if orderly {
        unsentAtRelease := unsentAtRelease + [|accepted| - |sent|];
      }
    }

    method SendInLoop(buf: Buffer)
      requires Valid() && buf.Valid() && buf != outBuffer && buf != inBuffer
      requires buf.data != outBuffer.data && buf.data != inBuffer.data
      modifies this`writeInterest, this`accepted, outBuffer, outBuffer.data
      ensures Valid() && (outBuffer.data == old(outBuffer.data) || fresh(outBuffer.data))
      ensures accepted == if statu == DISCONNECTED then old(accepted) else old(accepted) + buf.Readable()
      ensures |outBuffer.Readable()| >= old(|outBuffer.Readable()|)
    {
      if statu == DISCONNECTED {
        return;
      }
      ghost var more := buf.Readable();
      outBuffer.WriteBufferAndPush(buf);
      accepted := accepted + more;
      if !writeInterest {
        writeInterest := true;
      }
    }

    method Send(data: string)
      requires Valid()
      modifies this`writeInterest, this`accepted, outBuffer, outBuffer.data
      ensures Valid() && (outBuffer.data == old(outBuffer.data) || fresh(outBuffer.data))
      ensures accepted == if statu == DISCONNECTED then old(accepted) else old(accepted) + data
      ensures |outBuffer.Readable()| >= old(|outBuffer.Readable()|)
    {
      var buf := new Buffer();
      buf.WriteAndPush(data);
      assert buf.Readable() == data;
      SendInLoop(buf);
    }

    /** HttpServer::WriteReponse, for the event that was just handled. */
    method WriteResponse(ghost e: Event, req: Request, rsp: Response) returns (full: Response)
      requires Valid()
      requires Answer(site, e) == site.render(req.version, Completed(req, rsp))
      modifies this`writeInterest, this`accepted, this`log, outBuffer, outBuffer.data
      ensures Valid() && (outBuffer.data == old(outBuffer.data) || fresh(outBuffer.data))
      ensures log == old(log) + [e] && full == Completed(req, rsp)
      ensures statu != DISCONNECTED ==> accepted == old(accepted) + Answer(site, e)
      ensures old(NotStuck()) ==> NotStuck()
    {
      full := Completed(req, rsp);
      Send(site.render(req.version, full));
      log := log + [e];
    }

    /** This moment, as a starting point for a delivery. */
    ghost function Here(): Mark
      reads this
    {
      Mark(log, accepted, statu)
    }

    /**
     What is left to do before everything of `o` is handled, counting from the mark: either the
     buffer still holds exactly the rest of it, or it failed and all is done.
     */
    ghost predicate Owes(o: Out, m: Mark)
      reads this, inBuffer, outBuffer, inBuffer.data, outBuffer.data, context, context.request
    {
      && Valid()
      && (m.statu != DISCONNECTED ==> statu != DISCONNECTED)
      && (|| (&& Pending().last == o.last
              && log + Pending().events == m.log + o.events
              && StatuAfter(site, statu, Pending().events) == StatuAfter(site, m.statu, o.events)
              && (m.statu != DISCONNECTED ==> accepted + Answers(site, Pending().events) == m.accepted + Answers(site, o.events)))
          || (Failed(o) && Parser() == START && Counted(o, m)))
    }

    /**
     The events of `o` are in the log, a closing one has half-closed the connection, and the
     answers were accepted, unless the connection had been released before.
     */
    ghost predicate Counted(o: Out, m: Mark)
      reads this
    {
      && log == m.log + o.events
      && statu == StatuAfter(site, m.statu, o.events)
      && (m.statu != DISCONNECTED ==> statu != DISCONNECTED && accepted == m.accepted + Answers(site, o.events))
    }

    /** The delivery is over: the events of `o` were handled in order and the parser is where `o` ended. */
    ghost predicate Settled(o: Out, m: Mark, threw: bool)
      reads this, inBuffer, outBuffer, inBuffer.data, outBuffer.data, context, context.request
    {
      && Valid()
      && Counted(o, m)
      && (threw <==> Crashed(o))
      && (o.last.Live? ==> Parser() == o.last.config)
      && (Failed(o) ==> Parser() == START)
      && (!threw ==> Resting(Parser()))
    }

    /** What is settled and did not end the process owes nothing more, and conversely with a buffer at rest. */
    lemma SettledOwes(o: Out, m: Mark)
      requires Settled(o, m, false) || (Owes(o, m) && Resting(Parser()))
      ensures Settled(o, m, false) && Owes(o, m)
    {
      Requeue(Parser());
      assert Parser() == Config(context.Value(), inBuffer.Readable());
      assert log + [] == log;
      assert accepted + "" == accepted;
    }

    /** One answered request, and then everything else settled, is everything settled. */
    lemma SettledAfter(e: Event, rest: Out, m: Mark, next: Mark, threw: bool)
      requires Settled(rest, next, threw)
      requires Follows(m, e, next) && (Closes(site, e) ==> next.statu == DISCONNECTING)
      requires rest.last.Stopped? ==> rest.events != []
      ensures Settled(Out([e] + rest.events, rest.last), m, threw)
    {
      var o := Out([e] + rest.events, rest.last);
      AnswersCons(site, m.accepted, e, rest.events);
      AnyClosesCons(site, e, rest.events);
      Assoc(m.log, [e], rest.events);
      assert rest.events != [] ==> o.events[|o.events| - 1] == rest.events[|rest.events| - 1];
    }

    lemma ClosedAfter(e: Event, rest: Out, m: Mark, next: Mark, threw: bool)
      requires Settled(rest, next, threw)
      requires Follows(m, e, next) && next.statu == DISCONNECTING
      requires rest.last.Stopped? ==> rest.events != []
      ensures var o := Out([e] + rest.events, rest.last);
              if threw then Settled(o, m, true) else Ready(context.Value()) && Owes(o, m)
    {
      SettledAfter(e, rest, m, next, threw);
      if !threw {
        SettledOwes(Out([e] + rest.events, rest.last), m);
      }
    }

    /** `next` is `m` with one event answered; a closing event may have changed the status already. */
    ghost predicate Follows(m: Mark, e: Event, next: Mark) {
      && next.log == m.log + [e]
      && (m.statu != DISCONNECTED ==> next.statu != DISCONNECTED && next.accepted == m.accepted + Answer(site, e))
      && (next.statu == m.statu || (Closes(site, e) && next.statu == DISCONNECTING))
    }

    /** An answered request that keeps the connection leaves what is buffered behind it. */
    lemma OwesAfter(e: Event, rest: Out, m: Mark)
      requires Valid() && rest == Pending() && Follows(m, e, Here()) && statu == m.statu && !Closes(site, e)
      ensures Owes(Out([e] + rest.events, rest.last), m)
    {
      AnswersCons(site, m.accepted, e, rest.events);
      AnyClosesCons(site, e, rest.events);
      Assoc(m.log, [e], rest.events);
    }

    /** A refused request leaves nothing else to settle. */
    lemma SettledAfterError(e: Event, m: Mark, next: Mark, threw: bool)
      requires e.Bad? && Settled(Out([], Live(START)), next, threw)
      requires Follows(m, e, next) && next.statu == DISCONNECTING
      ensures Settled(Out([e], Stopped), m, threw)
    {
      AnswersCons(site, m.accepted, e, []);
      assert (m.log + [e]) + [] == m.log + [e] && [e] + [] == [e];
    }

    /** When what is left ends the process, so does the whole. */
    lemma CrashSettles(o: Out, m: Mark)
      requires Valid() && (m.statu != DISCONNECTED ==> statu != DISCONNECTED)
      requires o.last.Stopped? && |o.events| == 1 && o.events[0].Threw?
      requires log == m.log + o.events && accepted == m.accepted && statu == m.statu
      ensures Settled(o, m, true)
    {
      assert o.events[1..] == [];
      assert !AnyCloses(site, []) && !AnyCloses(site, o.events);
      assert Answers(site, o.events) == "";
      assert accepted + "" == accepted;
    }

    /** Nothing buffered, nothing to settle. */
    lemma SettledAtOnce()
      requires Valid() && Ready(context.Value()) && inBuffer.Readable() == ""
      ensures Settled(Pending(), Here(), false)
    {
      assert log + [] == log;
      assert accepted + "" == accepted;
    }

    /** Crash and failure of an output are those of its last part. */
    static lemma SameEnd(o: Out, p: Out, log0: seq<Event>, log1: seq<Event>)
      requires p.last == o.last && log1 + p.events == log0 + o.events
      requires o.last.Stopped? ==> o.events != [] && p.events != []
      ensures Crashed(o) == Crashed(p) && Failed(o) == Failed(p)
    {
      if o.last.Stopped? {
        var all := log0 + o.events;
        assert all[|all| - 1] == o.events[|o.events| - 1] == p.events[|p.events| - 1];
      }
    }

    /** `p` from mark `n` is the rest of `o` from mark `m`. */
    ghost predicate RestOf(p: Out, n: Mark, o: Out, m: Mark) {
      && p.last == o.last && n.log + p.events == m.log + o.events
      && (o.last.Stopped? ==> o.events != [] && p.events != [])
      && StatuAfter(site, n.statu, p.events) == StatuAfter(site, m.statu, o.events)
      && (m.statu != DISCONNECTED ==>
            n.statu != DISCONNECTED && n.accepted + Answers(site, p.events) == m.accepted + Answers(site, o.events))
    }

    /** Settling the rest settles the whole, and owing the rest is owing the whole. */
    lemma SettledRest(o: Out, m: Mark, p: Out, n: Mark, threw: bool)
      requires Settled(p, n, threw) && RestOf(p, n, o, m)
      ensures Settled(o, m, threw)
    {
      SameEnd(o, p, m.log, n.log);
    }

    lemma OwesRest(o: Out, m: Mark, p: Out, n: Mark)
      requires Owes(p, n) && RestOf(p, n, o, m)
      ensures Owes(o, m)
    {
      SameEnd(o, p, m.log, n.log);
    }

    /**
     HttpServer::OnMessage. The handled events are those of the byte automaton on the
     buffered bytes, whatever mixture of looping and recursion through Shutdown handles them.
     */
    method OnMessage() returns (threw: bool)
      requires Valid() && Ready(context.Value())
      modifies this, inBuffer`readerIdx, outBuffer, outBuffer.data, context, context.request
      ensures Settled(old(Pending()), old(Here()), threw)
      ensures outBuffer.data == old(outBuffer.data) || fresh(outBuffer.data)
      ensures |inBuffer.Readable()| <= old(|inBuffer.Readable()|)
      ensures readInterest == old(readInterest) && releases >= old(releases) && sent == old(sent)
      ensures !threw && old(NotStuck()) ==> NotStuck()
      decreases |inBuffer.Readable()|, 4
    {
      hide Run, ContentLength;
      ghost var o, m := Pending(), Here();
      while inBuffer.ReadAbleSize() > 0
        invariant Ready(context.Value()) && Owes(o, m)
        invariant outBuffer.data == old(outBuffer.data) || fresh(outBuffer.data)
        invariant |inBuffer.Readable()| <= old(|inBuffer.Readable()|)
        invariant sent == old(sent) && readInterest == old(readInterest) && releases >= old(releases)
        invariant old(NotStuck()) ==> NotStuck()
        decreases |inBuffer.Readable()|
      {
        ghost var p, n := Pending(), Here();
        assert RestOf(p, n, o, m);
        var finished;
        finished, threw := Round();
        if finished {
          SettledRest(o, m, p, n, threw);
          return;
        }
        OwesRest(o, m, p, n);
      }
      SettledOwes(o, m);
      threw := false;
    }

    /** The body of OnMessage's loop; `finished` says that it returned from the function. */
    method Round() returns (finished: bool, threw: bool)
      requires Valid() && Ready(context.Value()) && inBuffer.Readable() != ""
      modifies this, inBuffer`readerIdx, outBuffer, outBuffer.data, context, context.request
      ensures finished ==> Settled(old(Pending()), old(Here()), threw)
      ensures !finished ==> Ready(context.Value()) && Owes(old(Pending()), old(Here()))
      ensures !finished ==> |inBuffer.Readable()| < old(|inBuffer.Readable()|)
      ensures outBuffer.data == old(outBuffer.data) || fresh(outBuffer.data)
      ensures |inBuffer.Readable()| <= old(|inBuffer.Readable()|)
      ensures readInterest == old(readInterest) && releases >= old(releases) && sent == old(sent)
      ensures (threw ==> finished) && (!threw && old(NotStuck()) ==> NotStuck())
      decreases |inBuffer.Readable()|, 3
    {
      hide Run, ContentLength;
      ghost var o, m := Pending(), Here();
      assert Future(context.Value(), inBuffer.Readable()) == o;
      finished := true;
      threw := context.RecvHttpRequest(inBuffer);
      if threw {
        log := log + o.events;
        CrashSettles(o, m);
        return;
      }
      finished, threw := HandleParsed(o, |old(inBuffer.Readable())|);
    }

    /** The rest of that body: an error, an incomplete request, or a request to answer. */
    method HandleParsed(ghost o: Out, ghost size: nat) returns (finished: bool, threw: bool)
      requires Valid() && Sane(context.Value()) && o == Future(context.Value(), inBuffer.Readable())
      requires context.recvStatu == RECV_OVER || context.recvStatu == RECV_ERROR || Resting(Parser())
      requires |inBuffer.Readable()| <= size && 0 < size && (context.recvStatu == RECV_OVER ==> |inBuffer.Readable()| < size)
      modifies this, inBuffer`readerIdx, outBuffer, outBuffer.data, context, context.request
      ensures finished ==> Settled(o, old(Here()), threw)
      ensures !finished ==> Ready(context.Value()) && Owes(o, old(Here())) && |inBuffer.Readable()| < size
      ensures outBuffer.data == old(outBuffer.data) || fresh(outBuffer.data)
      ensures |inBuffer.Readable()| <= old(|inBuffer.Readable()|)
      ensures readInterest == old(readInterest) && releases >= old(releases) && sent == old(sent)
      ensures (threw ==> finished) && (!threw && old(NotStuck()) ==> NotStuck())
      decreases size, 2
    {
      hide Run, ContentLength;
      finished, threw := true, false;
      if context.respStatu >= 400 {
        assert o == Out([Bad(context.respStatu, context.request.Value())], Stopped);
        threw := Reject(o, size);
        return;
      }
      if context.recvStatu != RECV_OVER {
        Requeue(Parser());
        SettledOwes(o, Here());
        return;
      }
      threw := Reply();
      finished := threw;
    }

    /** Answers the error and shuts the connection down. */
    method Reject(ghost o: Out, ghost size: nat) returns (threw: bool)
      requires size > 0 && Valid() && context.recvStatu == RECV_ERROR && Sane(context.Value())
      requires o == Out([Bad(context.respStatu, context.request.Value())], Stopped)
      modifies this, inBuffer`readerIdx, outBuffer, outBuffer.data, context, context.request
      ensures Settled(o, old(Here()), threw)
      ensures outBuffer.data == old(outBuffer.data) || fresh(outBuffer.data)
      ensures |inBuffer.Readable()| <= old(|inBuffer.Readable()|)
      ensures readInterest == old(readInterest) && releases >= old(releases) && sent == old(sent)
      ensures !threw ==> NotStuck()
      decreases size, 1
    {
      ghost var m := Here();
      Refuse();
      assert Pending() == Out([], Live(START));
      hide Run, ContentLength;
      ghost var next := Here().(statu := DISCONNECTING);
      threw := ShutdownInLoop();
      SettledAfterError(o.events[0], m, next, threw);
    }

    /** Answers the error the parser stopped at and throws the buffered bytes away. */
    method Refuse()
      requires Valid() && context.recvStatu == RECV_ERROR && Sane(context.Value())
      modifies this`writeInterest, this`accepted, this`log, inBuffer`readerIdx
      modifies outBuffer, outBuffer.data, context, context.request
      ensures Valid() && Parser() == START
      ensures outBuffer.data == old(outBuffer.data) || fresh(outBuffer.data)
      ensures Follows(old(Here()), Bad(old(context.respStatu), old(context.request.Value())), Here()) && statu == old(statu)
      ensures old(context.respStatu) == 400 || old(context.respStatu) == 414
      ensures statu != DISCONNECTED ==>
                && old(accepted) <= accepted
                && IsErrorReply(site, old(context.respStatu), old(context.request.Value()), accepted[|old(accepted)|..])
    {
      hide IsErrorReply, Run, ContentLength;
      var req := context.request.Value();
      var rsp := ErrorResponse(site, context.respStatu);
      ghost var e, before := Bad(context.respStatu, req), accepted;
      ErrorReplyExactly(site, context.respStatu, req);
      var _ := WriteResponse(e, req, rsp);
      assert (before + Answer(site, e))[|before|..] == Answer(site, e);
      context.ReSet();
      inBuffer.MoveReadOffset(inBuffer.ReadAbleSize());
    }

    /** A completed request is the first of what is still to come. */
    static lemma DoneFuture(ctx: Ctx, buf: string, rest: Out)
      requires ctx.phase == RECV_OVER && rest == Run(START, buf)
      ensures Future(ctx, buf) == Out([Done(ctx.req)] + rest.events, rest.last)
    {
    }

    /** Answers the completed request and makes ready for the next. */
    method Respond() returns (rsp: Response)
      requires Valid() && context.recvStatu == RECV_OVER
      modifies this`writeInterest, this`accepted, this`log, outBuffer, outBuffer.data, context, context.request
      ensures Valid() && Ready(context.Value()) && Pending() == Run(START, inBuffer.Readable())
      ensures outBuffer.data == old(outBuffer.data) || fresh(outBuffer.data)
      ensures var e := Done(old(context.request.Value()));
              Follows(old(Here()), e, Here()) && (Closes(site, e) <==> WantsClose(rsp.headers))
      ensures old(NotStuck()) ==> NotStuck()
    {
      var req := context.request.Value();
      rsp := WriteResponse(Done(req), req, site.route(req));
      context.ReSet();
    }

    /** Answers the completed request; a short connection is shut down, which may recurse. */
    method Reply() returns (threw: bool)
      requires Valid() && context.recvStatu == RECV_OVER
      modifies this, inBuffer`readerIdx, outBuffer, outBuffer.data, context, context.request
      ensures var o := old(Future(context.Value(), inBuffer.Readable()));
              if threw then Settled(o, old(Here()), true) else Ready(context.Value()) && Owes(o, old(Here()))
      ensures outBuffer.data == old(outBuffer.data) || fresh(outBuffer.data)
      ensures |inBuffer.Readable()| <= old(|inBuffer.Readable()|)
      ensures readInterest == old(readInterest) && releases >= old(releases) && sent == old(sent)
      ensures !threw && old(NotStuck()) ==> NotStuck()
      decreases |inBuffer.Readable()|, 7
    {
      hide Run, ContentLength;
      ghost var e, m, rest := Done(context.request.Value()), Here(), Run(START, inBuffer.Readable());
      DoneFuture(context.Value(), inBuffer.Readable(), rest);
      var rsp := Respond();
      threw := false;
      if WantsClose(rsp.headers) {
        threw := CloseAfter(e, rest, m);
      } else {
        OwesAfter(e, rest, m);
      }
    }

    /** The short-connection branch: shuts down right after the answer. */
    method CloseAfter(ghost e: Event, ghost rest: Out, ghost m: Mark) returns (threw: bool)
      requires Valid() && Ready(context.Value()) && rest == Pending() && Follows(m, e, Here()) && Closes(site, e)
      modifies this, inBuffer`readerIdx, outBuffer, outBuffer.data, context, context.request
      ensures var o := Out([e] + rest.events, rest.last);
              if threw then Settled(o, m, true) else Ready(context.Value()) && Owes(o, m)
      ensures outBuffer.data == old(outBuffer.data) || fresh(outBuffer.data)
      ensures |inBuffer.Readable()| <= old(|inBuffer.Readable()|)
      ensures readInterest == old(readInterest) && releases >= old(releases) && sent == old(sent)
      ensures !threw ==> NotStuck()
      decreases |inBuffer.Readable()|, 6
    {
      hide Run, ContentLength;
      ghost var next := Here().(statu := DISCONNECTING);
      threw := ShutdownInLoop();
      ClosedAfter(e, rest, m, next, threw);
    }

    /** Half-closes: handles what is buffered, then waits for the output to drain or asks for release. */
    method ShutdownInLoop() returns (threw: bool)
      requires Valid() && Ready(context.Value())
      modifies this, inBuffer`readerIdx, outBuffer, outBuffer.data, context, context.request
      ensures Settled(old(Pending()), old(Here()).(statu := DISCONNECTING), threw)
      ensures outBuffer.data == old(outBuffer.data) || fresh(outBuffer.data)
      ensures |inBuffer.Readable()| <= old(|inBuffer.Readable()|)
      ensures readInterest == old(readInterest) && releases >= old(releases) && sent == old(sent)
      ensures !threw && outBuffer.Readable() == "" ==> releases > old(releases)
      decreases |inBuffer.Readable()|, 5
    {
      hide Run, ContentLength;
      ghost var o, m := Pending(), Here().(statu := DISCONNECTING);
      statu := DISCONNECTING;
      assert Pending() == o && Here() == m;
      threw := false;
      if inBuffer.ReadAbleSize() > 0 {
        threw := OnMessage();
        if threw {
          return;
        }
      } else {
        SettledAtOnce();
      }
      AwaitDrain(o, m);
    }

    /** The second half of shutting down, which keeps what is settled. */
    method AwaitDrain(ghost o: Out, ghost m: Mark)
      requires Settled(o, m, false)
      modifies this`writeInterest, this`releases, this`unsentAtRelease
      ensures Settled(o, m, false)
      ensures releases == if outBuffer.Readable() == "" then old(releases) + 1 else old(releases)
    {
      if outBuffer.ReadAbleSize() > 0 {
        writeInterest := true; // EnableWrite, unless it is on already
      }
      if outBuffer.ReadAbleSize() == 0 {
        Release(true);
      }
    }

    /** Readable: takes what arrived and parses it together with what was left before. */
    method HandleRead(received: Option<string>) returns (threw: bool)
      requires Valid() && Resting(Parser())
      modifies this, inBuffer, inBuffer.data, outBuffer, outBuffer.data, context, context.request
      ensures received.Some? ==> Settled(Run(old(Parser()), received.value), old(Here()), threw)
      ensures received.None? ==> Settled(Out([], Live(old(Parser()))), old(Here()).(statu := DISCONNECTING), threw)
      ensures outBuffer.data == old(outBuffer.data) || fresh(outBuffer.data)
      ensures inBuffer.data == old(inBuffer.data) || fresh(inBuffer.data)
      ensures readInterest == old(readInterest) && releases >= old(releases) && sent == old(sent)
      ensures !threw && old(NotStuck()) ==> NotStuck()
    {
      hide Run, ContentLength;
      if received.None? {
        Requeue(Parser());
        threw := ShutdownInLoop();
        return;
      }
      Receive(received.value);
      if inBuffer.ReadAbleSize() > 0 {
        threw := OnMessage();
      } else {
        SettledAtOnce();
        threw := false;
      }
    }

    /** Buffers what arrived: parsing the buffer from an empty line is reading on. */
    method Receive(data: string)
      requires Valid() && Resting(Parser())
      modifies inBuffer, inBuffer.data
      ensures Valid() && Ready(context.Value()) && Pending() == Run(old(Parser()), data)
      ensures inBuffer.data == old(inBuffer.data) || fresh(inBuffer.data)
    {
      hide Run, ContentLength;
      RequeueThen(Parser(), data);
      inBuffer.WriteAndPush(data);
    }

    /** Parses what is left over, which changes nothing, and asks for release. */
    method HandleClose() returns (threw: bool)
      requires Valid() && Resting(Parser())
      modifies this, inBuffer`readerIdx, outBuffer, outBuffer.data, context, context.request
      ensures !threw && Valid() && Parser() == old(Parser()) && Unanswered(old(Here()))
      ensures outBuffer.data == old(outBuffer.data) || fresh(outBuffer.data)
      ensures readInterest == old(readInterest) && releases > old(releases) && sent == old(sent)
    {
      hide Run, ContentLength;
      Requeue(Parser());
      threw := false;
      if inBuffer.ReadAbleSize() > 0 {
        threw := OnMessage();
        assert old(log) + [] == old(log) && old(accepted) + "" == old(accepted);
      }
      Release(false);
    }

    /** Nothing was handled since the mark. */
    ghost predicate Unanswered(m: Mark)
      reads this
    {
      log == m.log && statu == m.statu && (statu != DISCONNECTED ==> accepted == m.accepted)
    }

    /** Writable: hands the socket what it takes; a drained buffer stops waiting and may ask for release. */
    method HandleWrite(room: int) returns (threw: bool)
      requires Valid() && Resting(Parser())
      modifies this, inBuffer`readerIdx, outBuffer, outBuffer.data, context, context.request
      ensures !threw && Valid() && Parser() == old(Parser()) && Unanswered(old(Here()))
      ensures outBuffer.data == old(outBuffer.data) || fresh(outBuffer.data)
      ensures sent == old(sent) + old(outBuffer.Readable())[..Taken(room, |old(outBuffer.Readable())|)]
      ensures var waiting := old(outBuffer.Readable());
              && (room < 0 ==> sent == old(sent))
              && (0 <= room < |waiting| ==> sent == old(sent) + waiting[..room])
              && (room >= |waiting| ==> sent == old(sent) + waiting)
      ensures room < 0 && old(outBuffer.Readable()) != "" ==> releases > old(releases)
      ensures room >= 0 || old(outBuffer.Readable()) == "" ==>
                writeInterest == (old(writeInterest) && outBuffer.Readable() != "")
                && releases == if outBuffer.Readable() == "" && statu == DISCONNECTING then old(releases) + 1 else old(releases)
      ensures readInterest == old(readInterest) && releases >= old(releases) && NotStuck()
    {
      hide Run, ContentLength;
      threw := false;
      ghost var out := outBuffer.Readable();
      var ret := if outBuffer.ReadAbleSize() == 0 then 0 else if room < 0 then -1 else Taken(room, outBuffer.ReadAbleSize());
      if ret < 0 {
        threw := HandleClose();
        assert sent == old(sent) + out[..0];
        return;
      }
      Drain(ret);
    }

    /** The socket took `ret` bytes. */
    method Drain(ret: nat)
      requires Valid() && ret <= |outBuffer.Readable()|
      modifies this`sent, this`writeInterest, this`releases, this`unsentAtRelease, outBuffer`readerIdx
      ensures Valid() && sent == old(sent) + old(outBuffer.Readable())[..ret]
      ensures outBuffer.Readable() == old(outBuffer.Readable())[ret..]
      ensures writeInterest == (old(writeInterest) && outBuffer.Readable() != "")
      ensures releases == if outBuffer.Readable() == "" && statu == DISCONNECTING then old(releases) + 1 else old(releases)
    {
      ghost var out := outBuffer.Readable();
      assert out == out[..ret] + out[ret..];
      Assoc(sent, out[..ret], out[ret..]);
      outBuffer.MoveReadOffset(ret);
      sent := sent + out[..ret];
      if outBuffer.ReadAbleSize() == 0 {
        writeInterest := false;
        if statu == DISCONNECTING {
          Release(true);
        }
      }
    }

    /** A writable socket took what it has room for of everything accepted by then. */
    ghost predicate Wrote(d: Dispatch, before: string, from: ConnStatu)
      reads this
    {
      && before <= sent
      && (d.writable && from != DISCONNECTED ==> |sent| == |before| + Taken(d.room, |accepted| - |before|))
      && (!d.writable ==> sent == before)
    }

    /** Channel::HandleEvent: reading first, then one of writing, error and hang-up. */
    method HandleEvent(d: Dispatch) returns (threw: bool)
      requires Valid() && Resting(Parser())
      modifies this, inBuffer, inBuffer.data, outBuffer, outBuffer.data, context, context.request
      ensures Settled(Brought(old(Parser()), d), StartOf(old(Here()), d), threw)
      ensures outBuffer.data == old(outBuffer.data) || fresh(outBuffer.data)
      ensures inBuffer.data == old(inBuffer.data) || fresh(inBuffer.data)
      ensures readInterest == old(readInterest) && releases >= old(releases)
      ensures if threw then sent == old(sent) else Wrote(d, old(sent), old(statu))
      ensures !threw && Hung(d) ==> releases > old(releases)
      ensures !threw && old(NotStuck()) ==> NotStuck()
    {
      hide Run, ContentLength;
      ghost var o, m := Brought(Parser(), d), StartOf(Here(), d);
      threw := HandleReadable(d);
      if threw {
        return;
      }
      HandleOthers(d, o, m);
    }

    /** The reading half, if there is something to read. */
    method HandleReadable(d: Dispatch) returns (threw: bool)
      requires Valid() && Resting(Parser())
      modifies this, inBuffer, inBuffer.data, outBuffer, outBuffer.data, context, context.request
      ensures Settled(Brought(old(Parser()), d), StartOf(old(Here()), d), threw)
      ensures outBuffer.data == old(outBuffer.data) || fresh(outBuffer.data)
      ensures inBuffer.data == old(inBuffer.data) || fresh(inBuffer.data)
      ensures readInterest == old(readInterest) && releases >= old(releases) && sent == old(sent)
      ensures !threw && old(NotStuck()) ==> NotStuck()
    {
      hide Run, ContentLength;
      threw := false;
      if d.readable {
        threw := HandleRead(d.received);
      } else {
        assert log + [] == log && accepted + "" == accepted;
      }
    }

    /** The events after reading, of which one is handled; they keep what is settled. */
    method HandleOthers(d: Dispatch, ghost o: Out, ghost m: Mark)
      requires Settled(o, m, false)
      modifies this, inBuffer`readerIdx, outBuffer, outBuffer.data, context, context.request
      ensures Settled(o, m, false)
      ensures outBuffer.data == old(outBuffer.data) || fresh(outBuffer.data)
      ensures readInterest == old(readInterest) && releases >= old(releases)
      ensures Wrote(d, old(sent), m.statu)
      ensures Hung(d) ==> releases > old(releases)
      ensures old(NotStuck()) ==> NotStuck()
    {
      hide Run, ContentLength;
      var threw := false;
      if d.writable {
        threw := HandleWrite(d.room);
      } else if d.error {
        threw := HandleClose();
      } else if d.hangup {
        threw := HandleClose();
      }
    }

    /** A receive error half-closes the connection before anything else. */
    static ghost function StartOf(m: Mark, d: Dispatch): Mark {
      if d.readable && d.received.None? then m.(statu := DISCONNECTING) else m
    }

    /** The actual release; from now on nothing more is accepted for sending. */
    method ReleaseInLoop()
      requires Valid()
      modifies this`statu
      ensures Valid() && statu == DISCONNECTED
    {
      statu := DISCONNECTED;
    }

    /**
     A connection from its establishment to its release, over any dispatches: the requests it
     handles are those of the byte stream it received, however that was cut; what was sent together
     with what waits in the output buffer is exactly the answers to them, in order, and as much was
     sent as the sockets took at each write; a half-closed, drained or hung-up connection is released.
     */
    method Serve(evs: seq<Dispatch>) returns (threw: bool)
      requires Valid() && statu == CONNECTING && Parser() == START
      requires log == [] && accepted == ""
      modifies this, inBuffer, inBuffer.data, outBuffer, outBuffer.data, context, context.request
      ensures Valid() && sent + outBuffer.Readable() == Answers(site, log)
      ensures log == Deliver(START, Chunks(evs)).events && threw == Crashed(Deliver(START, Chunks(evs)))
      ensures !threw ==> Live(Parser()) == Deliver(START, Chunks(evs)).last
      ensures var whole := Run(START, Flatten(Chunks(evs)));
              && whole.events <= log
              && (!Failed(whole) ==> log == whole.events && (!threw ==> Live(Parser()) == whole.last))
      ensures |sent| == Served(site, NEW_TALLY, evs).sent
      ensures !threw ==> NotStuck() && ((exists d :: d in evs && !d.writable && (d.error || d.hangup)) ==> releases > 0)
      ensures !threw ==>
                (statu == DISCONNECTING <==>
                 (exists d :: d in evs && d.readable && d.received.None?) || (exists e :: e in log && Closes(site, e)))
      ensures forall e :: e in log && e.Bad? ==> e.statu == 400 || e.statu == 414
    {
      hide Run, ContentLength;
      EstablishedInLoop();
      assert sent == "";
      ghost var t := NEW_TALLY;
      assert !AnyCloses(site, []);
      threw := DispatchAll(evs, t);
      ghost var all := Deliver(START, Chunks(evs));
      assert [] + all.events == all.events;
      ServedIsDelivery(site, t, evs, all);
      HalfClosedExactly(site, t, evs, false);
      AnyClosesExactly(site, log);
      OnlyTwoCodesDelivered(START, Chunks(evs));
      assert forall d :: d in evs && !d.writable && (d.error || d.hangup) ==> Hung(d);
      assert forall d :: d in evs ==> (ReceiveError(d) <==> d.readable && d.received.None?);
      assert forall e :: e in log ==> RefusalCode(e);
      ChunkingIndependence(START, Chunks(evs));
    }

    /** The connection is where this run of dispatches leaves it. */
    ghost predicate Tallied(t: Tally)
      reads this, inBuffer, outBuffer, inBuffer.data, outBuffer.data, context, context.request
    {
      && Valid() && statu == (if t.halfClosed then DISCONNECTING else CONNECTED)
      && log == t.log && accepted == Answers(site, log) && |sent| == t.sent
      && (!t.crashed ==> Parser() == t.parser && Resting(Parser()))
    }

    method DispatchAll(evs: seq<Dispatch>, ghost t: Tally) returns (threw: bool)
      requires Tallied(t) && !t.crashed && NotStuck()
      modifies this, inBuffer, inBuffer.data, outBuffer, outBuffer.data, context, context.request
      ensures Tallied(Served(site, t, evs)) && threw == Served(site, t, evs).crashed
      ensures !threw ==> NotStuck() && ((exists d :: d in evs && Hung(d)) ==> releases > 0)
    {
      hide Run, ContentLength;
      ghost var u := t;
      threw := false;
      assert evs[0..] == evs;
      for i := 0 to |evs|
        invariant Tallied(u) && !u.crashed && NotStuck()
        invariant Served(site, u, evs[i..]) == Served(site, t, evs)
        invariant forall j :: 0 <= j < i && Hung(evs[j]) ==> releases > 0
        invariant fresh(inBuffer.data) || inBuffer.data == old(inBuffer.data)
        invariant fresh(outBuffer.data) || outBuffer.data == old(outBuffer.data)
      {
        assert evs[i..][1..] == evs[i + 1..];
        threw := DispatchNext(evs[i], u);
        u := Next(site, u, evs[i]);
        if threw {
          CrashStays(site, u, evs[i + 1..]);
          return;
        }
      }
    }

    /** One dispatch of the run. */
    method DispatchNext(d: Dispatch, ghost t: Tally) returns (threw: bool)
      requires Tallied(t) && !t.crashed && NotStuck()
      modifies this, inBuffer, inBuffer.data, outBuffer, outBuffer.data, context, context.request
      ensures Tallied(Next(site, t, d)) && threw == Next(site, t, d).crashed
      ensures !threw ==> NotStuck() && releases >= old(releases) && (Hung(d) ==> releases > 0)
      ensures outBuffer.data == old(outBuffer.data) || fresh(outBuffer.data)
      ensures inBuffer.data == old(inBuffer.data) || fresh(inBuffer.data)
    {
      hide Run, ContentLength;
      AnswersConcat(site, t.log, Brought(t.parser, d).events);
      threw := HandleEvent(d);
    }
  }
}
