/**
 The reference meaning of a request stream: an automaton that reads one byte at a time.
 It never looks at a buffer or at how the bytes arrived, so a program that agrees with it
 cannot depend on how the network cut the stream.
 */
module HttpAutomaton {
  import opened Text
  import opened HttpMessage

  const MAX_LINE: nat := 8192

  datatype Phase = RECV_ERROR | RECV_LINE | RECV_HEAD | RECV_BODY | RECV_OVER

  /** The value of an HttpContext object. */
  datatype Ctx = Ctx(statu: int, phase: Phase, req: Request)

  const FRESH := Ctx(200, RECV_LINE, BLANK)

  /** A context between two bytes, and the bytes of the line it is in the middle of. */
  datatype Config = Config(ctx: Ctx, pending: string)

  const START := Config(FRESH, "")

  /** What the server reacts to: a complete request, an error response, an uncaught std::stol exception. */
  datatype Event = Done(req: Request) | Bad(statu: int, req: Request) | Threw(req: Request)

  datatype Verdict = More(config: Config) | Emit(event: Event)

  datatype Last = Live(config: Config) | Stopped

  /** The events of a stream, and whether parsing goes on after them. */
  datatype Out = Out(events: seq<Event>, last: Last)

  function BodyVerdict(ctx: Ctx): Verdict {
    match ContentLength(ctx.req.headers)
    case None => Emit(Threw(ctx.req))
    case Some(n) => if |ctx.req.body| >= n then Emit(Done(ctx.req)) else More(Config(ctx, ""))
  }

  predicate Blank(line: string) {
    line == "\n" || line == "\r\n"
  }

  function OnLine(ctx: Ctx, line: string): Verdict {
    if |line| > MAX_LINE then Emit(Bad(414, ctx.req))
    else if ctx.phase == RECV_LINE then
      var (ok, r) := ParseLine(ctx.req, line);
      if ok then More(Config(ctx.(phase := RECV_HEAD, req := r), "")) else Emit(Bad(400, r))
    else if Blank(line) then BodyVerdict(ctx.(phase := RECV_BODY))
    else
      var (ok, r) := ParseHeader(ctx.req, line);
      if ok then More(Config(ctx.(req := r), "")) else Emit(Bad(400, r))
  }

  function OnByte(cfg: Config, c: char): Verdict {
    if cfg.ctx.phase == RECV_BODY then
      BodyVerdict(cfg.ctx.(req := cfg.ctx.req.(body := cfg.ctx.req.body + [c])))
    else if c == '\n' then OnLine(cfg.ctx, cfg.pending + [c])
    else if |cfg.pending| + 1 > MAX_LINE then Emit(Bad(414, cfg.ctx.req))
    else More(Config(cfg.ctx, cfg.pending + [c]))
  }

  function Run(cfg: Config, s: string): (o: Out)
    ensures o.last.Stopped? ==> o.events != []
    decreases |s|, 0
  {
    if s == "" then Out([], Live(cfg)) else Resume(OnByte(cfg, s[0]), s[1..])
  }

  function Resume(v: Verdict, rest: string): (o: Out)
    ensures o.last.Stopped? ==> o.events != []
    decreases |rest|, 1
  {
    match v
    case More(c) => Run(c, rest)
    case Emit(Done(r)) => var o := Run(START, rest); Out([Done(r)] + o.events, o.last)
    case Emit(e) => Out([e], Stopped)
  }

  /** Running on, from where an output left off. */
  function Then(o: Out, s: string): Out {
    match o.last
    case Live(c) => var p := Run(c, s); Out(o.events + p.events, p.last)
    case Stopped => o
  }

  /** A configuration in which the parser may rest between two deliveries. */
  predicate Resting(cfg: Config) {
    && cfg.ctx.statu == 200
    && match cfg.ctx.phase
       case RECV_LINE => cfg.ctx.req.body == "" && '\n' !in cfg.pending && |cfg.pending| <= MAX_LINE
       case RECV_HEAD => cfg.ctx.req.body == "" && '\n' !in cfg.pending && |cfg.pending| <= MAX_LINE
       case RECV_BODY => cfg.pending == "" && ContentLength(cfg.ctx.req.headers).Some?
                         && |cfg.ctx.req.body| < ContentLength(cfg.ctx.req.headers).value
       case _ => false
  }

  // ---------------------------------------------------------- running in parts

  lemma ResumeThen(v: Verdict, a: string, b: string)
    requires v.More? ==> Run(v.config, a + b) == Then(Run(v.config, a), b)
    requires v == Emit(Done(if v.Emit? && v.event.Done? then v.event.req else BLANK)) ==>
               Run(START, a + b) == Then(Run(START, a), b)
    ensures Resume(v, a + b) == Then(Resume(v, a), b)
  {
    if v.Emit? && v.event.Done? {
      var o := Run(START, a);
      if o.last.Live? {
        var e := [v.event];
        var p := Run(o.last.config, b);
        assert e + (o.events + p.events) == (e + o.events) + p.events;
      }
    }
  }

  /** Reading a ++ b is reading a and then b. */
  lemma {:induction false} RunConcat(cfg: Config, a: string, b: string)
    ensures Run(cfg, a + b) == Then(Run(cfg, a), b)
    decreases |a|
  {
    if a == "" {
      assert a + b == b;
    } else {
      var v := OnByte(cfg, a[0]);
      assert (a + b)[1..] == a[1..] + b;
      if v.More? {
        RunConcat(v.config, a[1..], b);
      } else if v.event.Done? {
        RunConcat(START, a[1..], b);
      }
      ResumeThen(v, a[1..], b);
    }
  }

  predicate InLines(ctx: Ctx) {
    ctx.phase == RECV_LINE || ctx.phase == RECV_HEAD
  }

  /** Bytes without a newline only pile up, until there are too many of them. */
  lemma {:induction false} RunPartial(ctx: Ctx, pending: string, s: string)
    requires InLines(ctx) && '\n' !in s && |pending| <= 8192
    ensures |pending| + |s| <= 8192 ==> Run(Config(ctx, pending), s) == Out([], Live(Config(ctx, pending + s)))
    ensures |pending| + |s| > 8192 ==> Run(Config(ctx, pending), s) == Out([Bad(414, ctx.req)], Stopped)
    decreases |s|
  {
    if s == "" {
      assert pending + s == pending;
    } else if |pending| + 1 <= MAX_LINE {
      RunPartial(ctx, pending + [s[0]], s[1..]);
      assert pending + [s[0]] + s[1..] == pending + s;
    }
  }

  /** A whole line is judged as a line, whether or not it is too long. */
  lemma RunLine(ctx: Ctx, text: string, rest: string)
    requires InLines(ctx) && '\n' !in text
    ensures Run(Config(ctx, ""), (text + "\n") + rest) == Resume(OnLine(ctx, text + "\n"), rest)
  {
    RunPartial(ctx, "", text);
    assert "" + text == text;
    assert (text + "\n") + rest == text + ("\n" + rest);
    RunConcat(Config(ctx, ""), text, "\n" + rest);
    if |text| <= MAX_LINE {
      assert ("\n" + rest)[1..] == rest;
      var o := Run(Config(ctx, text), "\n" + rest);
      assert [] + o.events == o.events;
    }
  }

  function WithBody(ctx: Ctx, more: string): Ctx {
    ctx.(req := ctx.req.(body := ctx.req.body + more))
  }

  /** Body bytes short of Content-Length are collected. */
  lemma {:induction false} RunBody(ctx: Ctx, s: string, n: nat)
    requires ctx.phase == RECV_BODY && ContentLength(ctx.req.headers) == Some(n)
    requires |ctx.req.body| + |s| < n
    ensures Run(Config(ctx, ""), s) == Out([], Live(Config(WithBody(ctx, s), "")))
    decreases |s|
  {
    if s == "" {
      assert ctx.req.body + "" == ctx.req.body;
    } else {
      RunBody(WithBody(ctx, [s[0]]), s[1..], n);
      assert ctx.req.body + [s[0]] + s[1..] == ctx.req.body + s;
    }
  }

  /** The byte that completes the body completes the request. */
  lemma RunBodyFull(ctx: Ctx, s: string, rest: string, n: nat)
    requires ctx.phase == RECV_BODY && ContentLength(ctx.req.headers) == Some(n)
    requires |ctx.req.body| < n && |ctx.req.body| + |s| == n
    ensures Run(Config(ctx, ""), s + rest) == Resume(Emit(Done(WithBody(ctx, s).req)), rest)
  {
    var k := |s| - 1;
    var tail := [s[k]] + rest;
    assert s + rest == s[..k] + tail;
    RunBody(ctx, s[..k], n);
    RunConcat(Config(ctx, ""), s[..k], tail);
    var full := WithBody(ctx, s[..k]);
    assert full.req.body + [s[k]] == ctx.req.body + s;
    assert tail[1..] == rest;
    var o := Run(Config(full, ""), tail);
    assert o == Resume(BodyVerdict(WithBody(ctx, s)), rest);
    assert [] + o.events == o.events;
  }

  // ------------------------------------------------------- resting invariant

  lemma RestingByte(cfg: Config, c: char)
    requires Resting(cfg)
    ensures OnByte(cfg, c).More? ==> Resting(OnByte(cfg, c).config)
  {
    if cfg.ctx.phase != RECV_BODY {
      if c == '\n' {
        RestingLine(cfg.ctx, cfg.pending + [c]);
      }
    }
  }

  lemma RestingLine(ctx: Ctx, line: string)
    requires InLines(ctx) && ctx.statu == 200 && ctx.req.body == ""
    ensures OnLine(ctx, line).More? ==> Resting(OnLine(ctx, line).config)
  {
    ParseLineKeepsBody(ctx.req, line);
  }

  lemma ParseLineKeepsBody(req: Request, line: string)
    ensures ParseLine(req, line).1.body == req.body
  {
    var m := MatchLine(line);
    if m.Some? {
      var r := req.(verb := Upper(m.value.verb), path := UrlCodec.Decode(m.value.path, false), version := m.value.version);
      AddParamsKeepsBody(r, NonEmpty(Pieces(m.value.query, "&", 0)));
    }
  }

  lemma {:induction false} AddParamsKeepsBody(req: Request, pieces: seq<string>)
    ensures AddParams(req, pieces).1 == req.(params := AddParams(req, pieces).1.params)
    decreases |pieces|
  {
    if |pieces| > 0 && AddParam(req, pieces[0]).Some? {
      AddParamsKeepsBody(AddParam(req, pieces[0]).value, pieces[1..]);
    }
  }

  /** From a resting configuration the automaton always rests again, or stops. */
  lemma {:induction false} RunRests(cfg: Config, s: string)
    requires Resting(cfg)
    ensures Run(cfg, s).last.Live? ==> Resting(Run(cfg, s).last.config)
    decreases |s|
  {
    if s != "" {
      RestingByte(cfg, s[0]);
      var v := OnByte(cfg, s[0]);
      if v.More? {
        RunRests(v.config, s[1..]);
      } else if v.event.Done? {
        RunRests(START, s[1..]);
      }
    }
  }

  /** Handing over the pending bytes once more changes nothing: the rest is the same. */
  lemma Requeue(cfg: Config)
    requires Resting(cfg)
    ensures Run(Config(cfg.ctx, ""), cfg.pending) == Out([], Live(cfg))
  {
    if cfg.ctx.phase != RECV_BODY {
      RunPartial(cfg.ctx, "", cfg.pending);
      assert "" + cfg.pending == cfg.pending;
    }
  }

  /** Reading on from a resting configuration is reading pending ++ s from an empty line. */
  lemma RequeueThen(cfg: Config, s: string)
    requires Resting(cfg)
    ensures Run(Config(cfg.ctx, ""), cfg.pending + s) == Run(cfg, s)
  {
    Requeue(cfg);
    RunConcat(Config(cfg.ctx, ""), cfg.pending, s);
    assert [] + Run(cfg, s).events == Run(cfg, s).events;
  }

  // ---------------------------------------------------- chunking independence

  function Flatten(chunks: seq<string>): string {
    if |chunks| == 0 then "" else chunks[0] + Flatten(chunks[1..])
  }

  predicate Crashed(o: Out) {
    o.last.Stopped? && |o.events| > 0 && o.events[|o.events| - 1].Threw?
  }

  predicate Failed(o: Out) {
    o.last.Stopped? && !Crashed(o)
  }

  /**
   What a whole connection does: each chunk is parsed as it comes. After an error the rest of
   the chunk is thrown away and the next chunk starts on a fresh context (http.hpp:930-938);
   an uncaught exception ends the process.
   */
  function Deliver(cfg: Config, chunks: seq<string>): Out
    decreases |chunks|
  {
    if |chunks| == 0 then Out([], Live(cfg))
    else
      var o := Run(cfg, chunks[0]);
      if Crashed(o) then o
      else
        var p := Deliver(if o.last.Live? then o.last.config else START, chunks[1..]);
        Out(o.events + p.events, p.last)
  }

  /**
   However a stream is cut, the events up to and including the first error are those of the
   stream itself; without an error the final configuration is the same too.
   */
  lemma {:induction false} ChunkingIndependence(cfg: Config, chunks: seq<string>)
    ensures Run(cfg, Flatten(chunks)).events <= Deliver(cfg, chunks).events
    ensures !Failed(Run(cfg, Flatten(chunks))) ==> Deliver(cfg, chunks) == Run(cfg, Flatten(chunks))
    decreases |chunks|
  {
    if |chunks| > 0 {
      var o := Run(cfg, chunks[0]);
      RunConcat(cfg, chunks[0], Flatten(chunks[1..]));
      if o.last.Live? {
        ChunkingIndependence(o.last.config, chunks[1..]);
        EventsThen(o, Run(o.last.config, Flatten(chunks[1..])));
      }
    }
  }

  predicate RefusalCode(e: Event) {
    e.Bad? ==> e.statu == 400 || e.statu == 414
  }

  /** Whatever is read, an error is 400 or 414. */
  lemma {:induction false} OnlyTwoCodes(cfg: Config, s: string)
    ensures forall e :: e in Run(cfg, s).events ==> RefusalCode(e)
    decreases |s|
  {
    if s != "" {
      var v := OnByte(cfg, s[0]);
      if v.More? {
        OnlyTwoCodes(v.config, s[1..]);
      } else if v.event.Done? {
        OnlyTwoCodes(START, s[1..]);
      }
    }
  }

  lemma {:induction false} OnlyTwoCodesDelivered(cfg: Config, chunks: seq<string>)
    ensures forall e :: e in Deliver(cfg, chunks).events ==> RefusalCode(e)
    decreases |chunks|
  {
    if |chunks| > 0 {
      var o := Run(cfg, chunks[0]);
      OnlyTwoCodes(cfg, chunks[0]);
      OnlyTwoCodesDelivered(if o.last.Live? then o.last.config else START, chunks[1..]);
    }
  }

  /** Whether an output failed or crashed depends on its last part only. */
  lemma EventsThen(o: Out, p: Out)
    requires o.last.Live? && (p.last.Stopped? ==> p.events != [])
    ensures Crashed(Out(o.events + p.events, p.last)) == Crashed(p)
  {
    if p.events != [] {
      assert (o.events + p.events)[|o.events| + |p.events| - 1] == p.events[|p.events| - 1];
    }
  }

  /** The stream has an error before its last byte. */
  ghost predicate FailsEarly(cfg: Config, s: string) {
    exists k :: 0 <= k < |s| && Failed(Run(cfg, s[..k]))
  }

  /** An unfinished delivery that follows some byte is never back at the start without an event. */
  lemma {:induction false} NeverIdle(cfg: Config, s: string)
    requires s != "" || cfg != START
    requires cfg.ctx.phase == RECV_LINE ==> cfg == START || cfg.pending != ""
    ensures Run(cfg, s) != Out([], Live(START))
    decreases |s|
  {
    if s != "" {
      var v := OnByte(cfg, s[0]);
      if v.More? {
        NeverIdle(v.config, s[1..]);
      }
    }
  }

  /** A failure before the end shows: cutting the stream there changes the outcome. */
  lemma FailureShows(cfg: Config, s: string, k: nat)
    requires k < |s| && Failed(Run(cfg, s[..k]))
    ensures Flatten([s[..k], s[k..]]) == s && Deliver(cfg, [s[..k], s[k..]]) != Deliver(cfg, [s])
  {
    var p, q := s[..k], s[k..];
    assert p + q == s && q + "" == q;
    assert [p, q][1..] == [q] && [q][1..] == [] && [s][1..] == [];
    assert Flatten([q]) == q;
    var o := Run(cfg, p);
    RunConcat(cfg, p, q);
    NeverIdle(START, q);
    DeliverOne(cfg, s);
    DeliverOne(START, q);
    var t := Deliver(START, [q]);
    assert Deliver(cfg, [p, q]) == Out(o.events + t.events, t.last);
    assert Deliver(cfg, [s]) == Out(o.events, Live(START));
    if t.events == [] && t.last == Live(START) {
      assert false;
    }
    if o.events + t.events == o.events {
      assert |t.events| == 0;
    }
  }

  /** Delivery in one piece. */
  lemma DeliverOne(cfg: Config, s: string)
    ensures var o := Run(cfg, s);
            Deliver(cfg, [s]) == if Failed(o) then Out(o.events, Live(START)) else o
  {
    var o := Run(cfg, s);
    assert [s][1..] == [];
    assert o.events + [] == o.events;
  }

  /** Without an early failure no cut matters. */
  lemma {:induction false} NoFailureNoDifference(cfg: Config, chunks: seq<string>)
    requires !FailsEarly(cfg, Flatten(chunks))
    ensures Deliver(cfg, chunks) == Deliver(cfg, [Flatten(chunks)])
    decreases |chunks|
  {
    var s := Flatten(chunks);
    DeliverOne(cfg, s);
    if |chunks| > 0 {
      var c, rest := chunks[0], Flatten(chunks[1..]);
      var o := Run(cfg, c);
      RunConcat(cfg, c, rest);
      assert s[..|c|] == c;
      if o.last.Live? {
        var next := o.last.config;
        forall k | 0 <= k < |rest| ensures !Failed(Run(next, rest[..k])) {
          assert s[..|c| + k] == c + rest[..k];
          RunConcat(cfg, c, rest[..k]);
          EventsThen(o, Run(next, rest[..k]));
        }
        NoFailureNoDifference(next, chunks[1..]);
        DeliverOne(next, rest);
        EventsThen(o, Run(next, rest));
      } else if Failed(o) {
        assert rest == "" && s == c;
        NoFailureNoDifference(START, chunks[1..]);
        DeliverOne(START, "");
        assert o.events + [] == o.events;
      }
    }
  }

  /**
   Exactly when the outcome of a connection does not depend on how its bytes are cut:
   when no error occurs before the last byte.
   */
  lemma CutsDoNotMatterExactly(cfg: Config, s: string)
    ensures (forall chunks :: Flatten(chunks) == s ==> Deliver(cfg, chunks) == Deliver(cfg, [s]))
            <==> !FailsEarly(cfg, s)
  {
    if FailsEarly(cfg, s) {
      var k :| 0 <= k < |s| && Failed(Run(cfg, s[..k]));
      FailureShows(cfg, s, k);
    } else {
      forall chunks | Flatten(chunks) == s ensures Deliver(cfg, chunks) == Deliver(cfg, [s]) {
        NoFailureNoDifference(cfg, chunks);
      }
    }
  }

  /** A concrete stream for which the cut does matter: a bad line followed by more bytes. */
  lemma CutsCanMatter()
    ensures Failed(Run(START, "\n")) && FailsEarly(START, "\nG")
    ensures Deliver(START, ["\n", "G"]) != Deliver(START, ["\nG"])
  {
    var line := "\n";
    assert StripEol(line) == "";
    assert Find("", " ", 0).None?;
    assert MatchLine(line).None?;
    assert "" + line == line && line[1..] == "";
    assert Run(START, line) == Out([Bad(400, BLANK)], Stopped);
    assert "\nG"[..1] == line && "\nG"[1..] == "G";
    FailureShows(START, "\nG", 1);
  }
}
