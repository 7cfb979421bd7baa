/**
 What the parser accepts and refuses, in terms of the bytes on the wire: literal verbs and versions,
 literal separators, sizes and status codes, and nothing of how the parser goes about it.
 */
module HttpWire {
  import opened Text
  import opened HttpMessage
  import opened HttpAutomaton
  import opened HttpRoundTrip
  import UrlCodec

  // ------------------------------------------------------------ request line

  /** s is t, written in capitals, but for the case of some letters: small ones are 32 further on. */
  ghost predicate Spells(s: string, t: string) {
    |s| == |t| && forall k :: 0 <= k < |s| ==> s[k] == t[k] || ('A' <= t[k] <= 'Z' && s[k] as int == t[k] as int + 32)
  }

  lemma UpperSpells(s: string, t: string)
    requires forall k :: 0 <= k < |t| ==> !('a' <= t[k] <= 'z')
    ensures Upper(s) == t <==> Spells(s, t)
  {
    forall k | 0 <= k < |s| ensures Upper(s)[k] == UpperChar(s[k]) {
      UpperAt(s, k);
    }
    if Spells(s, t) {
      forall k | 0 <= k < |s| ensures Upper(s)[k] == t[k] {
        assert s[k] == t[k] || ('A' <= t[k] <= 'Z' && s[k] as int == t[k] as int + 32);
      }
      assert Upper(s) == t;
    }
  }

  /** The five verbs, in any letter case, and no others. */
  lemma VerbExactly(s: string)
    ensures IsVerb(s) <==>
            Spells(s, "GET") || Spells(s, "HEAD") || Spells(s, "POST") || Spells(s, "PUT") || Spells(s, "DELETE")
  {
    UpperSpells(s, "GET");
    UpperSpells(s, "HEAD");
    UpperSpells(s, "POST");
    UpperSpells(s, "PUT");
    UpperSpells(s, "DELETE");
  }

  /** The two versions, in any letter case, and no others. */
  lemma VersionExactly(s: string)
    ensures IsVersion(s) <==> Spells(s, "HTTP/1.0") || Spells(s, "HTTP/1.1")
  {
    UpperSpells(s, "HTTP/1.0");
    UpperSpells(s, "HTTP/1.1");
  }

  /** A request line as it may be written: `v` in any case, a path, a query or none, a version, an ending or none. */
  ghost predicate Written(line: string, v: string, verb: string, path: string, query: Option<string>,
                          version: string, eol: string) {
    && line == verb + " " + path + (if query.Some? then "?" + query.value else "") + " " + version + eol
    && v in {"GET", "HEAD", "POST", "PUT", "DELETE"} && Spells(verb, v)
    && '?' !in path
    && (query.Some? ==> '\n' !in query.value && '\r' !in query.value)
    && (Spells(version, "HTTP/1.0") || Spells(version, "HTTP/1.1"))
    && eol in {"", "\n", "\r\n"}
  }

  lemma WrittenDecomposes(line: string, v: string, verb: string, path: string, query: Option<string>,
                          version: string, eol: string)
    requires Written(line, v, verb, path, query, version, eol)
    ensures Decomposes(line, verb, path, query, version, eol) && Upper(verb) == v
  {
    VerbExactly(verb);
    VersionExactly(version);
    UpperSpells(verb, v);
  }

  lemma DecomposesWritten(line: string, verb: string, path: string, query: Option<string>, version: string, eol: string)
    requires Decomposes(line, verb, path, query, version, eol)
    ensures Written(line, Upper(verb), verb, path, query, version, eol)
  {
    VerbExactly(verb);
    VersionExactly(version);
    UpperSpells(verb, Upper(verb));
  }

  /** A written line is matched; the request gets the verb in capitals, the decoded path and the version as it stands. */
  lemma WrittenIsRead(req: Request, line: string, v: string, verb: string, path: string, query: Option<string>,
                      version: string, eol: string)
    requires Written(line, v, verb, path, query, version, eol)
    ensures MatchLine(line) == Some(LineParts(verb, path, if query.Some? then query.value else "", version))
    ensures var r := ParseLine(req, line).1;
            r.verb == v && r.path == UrlCodec.Decode(path, false) && r.version == version
  {
    WrittenDecomposes(line, v, verb, path, query, version, eol);
    MatchLineComplete(line, verb, path, query, version, eol);
    AddParamsKeepsBody(req.(verb := v, path := UrlCodec.Decode(path, false), version := version),
                       NonEmpty(Pieces(Captured(query), "&", 0)));
  }

  /** A line is matched exactly when it is written in one of these ways; any other leaves the request as it was. */
  lemma RequestLineExactly(req: Request, line: string)
    ensures MatchLine(line).Some? <==>
            exists v, verb, path, query, version, eol :: Written(line, v, verb, path, query, version, eol)
    ensures (forall v, verb, path, query, version, eol :: !Written(line, v, verb, path, query, version, eol)) ==>
              ParseLine(req, line) == (false, req)
  {
    if MatchLine(line).Some? {
      var query, eol := MatchLineSound(line);
      var p := MatchLine(line).value;
      DecomposesWritten(line, p.verb, p.path, query, p.version, eol);
    }
    forall v, verb, path, query, version, eol | Written(line, v, verb, path, query, version, eol)
      ensures MatchLine(line).Some?
    {
      WrittenIsRead(req, line, v, verb, path, query, version, eol);
    }
  }

  /** A query piece is cut at its first '=', and both halves are decoded with '+' for a space; without '=' it is refused. */
  lemma PieceExactly(req: Request, piece: string)
    ensures AddParam(req, piece).None? <==> '=' !in piece
    ensures forall key, val :: '=' !in key && piece == key + "=" + val ==>
              AddParam(req, piece) ==
              Some(req.(params := Insert(req.params, UrlCodec.Decode(key, true), UrlCodec.Decode(val, true))))
  {
    FindCharNone(piece, '=', 0);
    forall key, val | '=' !in key && piece == key + "=" + val
      ensures AddParam(req, piece) ==
              Some(req.(params := Insert(req.params, UrlCodec.Decode(key, true), UrlCodec.Decode(val, true))))
    {
      FindCharIs(piece, '=', 0, |key|);
      assert piece[..|key|] == key && piece[|key| + 1..] == val;
    }
  }

  // ------------------------------------------------------------ header lines

  /** ": " occurs in s at k. */
  ghost predicate ColonAt(s: string, k: int) {
    0 <= k && k + 1 < |s| && s[k] == ':' && s[k + 1] == ' '
  }

  lemma ColonIs(s: string, k: int)
    ensures At(s, ": ", k) <==> ColonAt(s, k)
  {
    if 0 <= k && k + 2 <= |s| {
      assert s[k..k + 2] == [s[k], s[k + 1]];
    }
  }

  lemma LineEndStripped(text: string, eol: string)
    requires eol == "\r\n" || (eol == "\n" && (text == "" || text[|text| - 1] != '\r'))
    ensures StripHead(text + eol) == text
  {
    var line := text + eol;
    if eol == "\n" {
      assert line[..|line| - 1] == text;
    } else {
      assert line[..|line| - 1] == text + "\r";
      assert (text + "\r")[..|text|] == text;
    }
  }

  /** A header line, with either ending, is cut at its first ": "; without one it is refused. */
  lemma HeaderExactly(req: Request, text: string, eol: string)
    requires eol == "\r\n" || (eol == "\n" && (text == "" || text[|text| - 1] != '\r'))
    ensures (forall k :: !ColonAt(text, k)) ==> ParseHeader(req, text + eol) == (false, req)
    ensures forall k :: ColonAt(text, k) && (forall j :: 0 <= j < k ==> !ColonAt(text, j)) ==>
              ParseHeader(req, text + eol) == (true, req.(headers := Insert(req.headers, text[..k], text[k + 2..])))
  {
    LineEndStripped(text, eol);
    forall k: int ensures At(text, ": ", k) <==> ColonAt(text, k) {
      ColonIs(text, k);
    }
    forall k | ColonAt(text, k) && (forall j :: 0 <= j < k ==> !ColonAt(text, j))
      ensures ParseHeader(req, text + eol) == (true, req.(headers := Insert(req.headers, text[..k], text[k + 2..])))
    {
      FindIs(text, ": ", 0, k);
    }
  }

  lemma BlankExactly(text: string)
    ensures Blank(text + "\n") <==> text == "" || text == "\r"
  {
    assert (text + "\n")[..|text|] == text;
    assert "\n"[..0] == "" && "\r\n"[..1] == "\r";
  }

  /** The head ends with an empty line, with either ending, and with nothing else. */
  lemma HeadEndsExactly(ctx: Ctx, text: string, rest: string)
    requires ctx.phase == RECV_HEAD && '\n' !in text
    ensures var o := Run(Config(ctx, ""), (text + "\n") + rest);
            if text == "" || text == "\r" then o == Resume(BodyVerdict(ctx.(phase := RECV_BODY)), rest)
            else if |text| >= 8192 then o == Out([Bad(414, ctx.req)], Stopped)
            else if !ParseHeader(ctx.req, text + "\n").0 then o == Out([Bad(400, ctx.req)], Stopped)
            else o == Run(Config(ctx.(req := ParseHeader(ctx.req, text + "\n").1), ""), rest)
  {
    RunLine(ctx, text, rest);
    BlankExactly(text);
  }

  // ------------------------------------------------------------------ errors

  /** The first line: too long is 414, one that cannot be written so is 400, and a good one goes on to the head. */
  lemma FirstLineExactly(text: string, rest: string)
    requires '\n' !in text
    ensures var o := Run(START, (text + "\n") + rest);
            var blank := Request("", "", "HTTP/1.1", "", map[], map[]);
            var (ok, req) := ParseLine(blank, text + "\n");
            if |text| >= 8192 then o == Out([Bad(414, blank)], Stopped)
            else if !ok then o == Out([Bad(400, req)], Stopped)
            else o == Run(Config(Ctx(200, RECV_HEAD, req), ""), rest)
  {
    RunLine(FRESH, text, rest);
  }

  // ---------------------------------------------------------- Content-Length

  predicate Digit(c: char) {
    c in "0123456789"
  }

  lemma DigitIs(c: char)
    ensures Digit(c) <==> IsDigit(c)
  {
    if IsDigit(c) {
      assert "0123456789"[c as int - '0' as int] == c;
    }
  }

  lemma {:induction false} SpacesSkipped(ws: string, t: string)
    requires forall k :: 0 <= k < |ws| ==> ws[k] == ' ' || 9 <= ws[k] as int <= 13
    requires t == "" || !(t[0] == ' ' || 9 <= t[0] as int <= 13)
    ensures SkipSpace(ws + t) == t
    decreases |ws|
  {
    if ws == "" {
      assert ws + t == t;
    } else {
      assert (ws + t)[1..] == ws[1..] + t;
      SpacesSkipped(ws[1..], t);
    }
  }

  lemma {:induction false} DigitsThenJunk(s: string, junk: string, acc: nat)
    requires forall i :: 0 <= i < |s| ==> IsDigit(s[i])
    requires junk == "" || !IsDigit(junk[0])
    ensures DigitsValue(s + junk, acc) == DigitsValue(s, acc)
    decreases |s|
  {
    if s == "" {
      assert s + junk == junk;
    } else {
      assert (s + junk)[1..] == s[1..] + junk;
      DigitsThenJunk(s[1..], junk, acc * 10 + (s[0] as int - '0' as int));
    }
  }

  /** The decimal form of a size: its digits, and no leading zero. */
  lemma {:induction false} DecimalIsPlain(n: nat)
    ensures n < 10 ==> Decimal(n) == ["0123456789"[n]]
    ensures n >= 10 ==> Decimal(n)[0] != '0' && Decimal(n) == Decimal(n / 10) + ["0123456789"[n % 10]]
  {
    DigitChar(n % 10);
    if n >= 10 {
      DigitChar(n / 10 % 10);
      DecimalRoundTrip(n / 10);
      DecimalIsPlain(n / 10);
    }
  }

  lemma DigitChar(d: nat)
    requires d < 10
    ensures "0123456789"[d] == ('0' as int + d) as char
  {
  }

  /** std::stol takes white space, a sign and digits, ignores what follows, and throws on what a long cannot hold. */
  lemma StolReads(ws: string, sign: string, n: nat, junk: string)
    requires forall k :: 0 <= k < |ws| ==> ws[k] == ' ' || 9 <= ws[k] as int <= 13
    requires sign in {"", "+", "-"} && (junk == "" || !Digit(junk[0]))
    ensures var v: int := if sign == "-" then -(n as int) else n;
            Stol(ws + (sign + (Decimal(n) + junk))) ==
            if -9223372036854775808 <= v <= 9223372036854775807 then Some(v) else None
  {
    var u := Decimal(n) + junk;
    DecimalRoundTrip(n);
    if junk != "" {
      DigitIs(junk[0]);
    }
    DigitsThenJunk(Decimal(n), junk, 0);
    assert u[0] == Decimal(n)[0];
    SpacesSkipped(ws, sign + u);
    if sign == "" {
      assert sign + u == u;
    } else {
      assert (sign + u)[1..] == u;
    }
  }

  /** And it throws when no digit follows. */
  lemma StolThrows(ws: string, sign: string, t: string)
    requires forall k :: 0 <= k < |ws| ==> ws[k] == ' ' || 9 <= ws[k] as int <= 13
    requires sign in {"", "+", "-"} && (t == "" || !Digit(t[0]))
    requires sign == "" && t != "" ==> !(t[0] in " +-" || 9 <= t[0] as int <= 13)
    ensures Stol(ws + (sign + t)).None?
  {
    SpacesSkipped(ws, sign + t);
    if t != "" {
      DigitIs(t[0]);
    }
    if sign == "" {
      assert sign + t == t;
      if t != "" {
        assert '+' in " +-" && '-' in " +-" && ' ' in " +-";
      }
    } else {
      assert (sign + t)[1..] == t;
    }
  }

  /** No field is length 0; a negative value wraps around 2 to the 64. */
  lemma LengthReads(headers: map<string, string>, sign: string, n: nat)
    requires sign in {"", "+", "-"} && n <= 9223372036854775807
    ensures "Content-Length" !in headers ==> ContentLength(headers) == Some(0)
    ensures "Content-Length" in headers && headers["Content-Length"] == sign + Decimal(n) ==>
              ContentLength(headers) == Some(if sign == "-" && n > 0 then 18446744073709551616 - n else n)
  {
    StolReads("", sign, n, "");
    assert "" + (sign + (Decimal(n) + "")) == sign + Decimal(n);
  }

  // --------------------------------------------------- what can be printed

  /** These bytes survive percent-encoding. */
  ghost predicate Sendable(s: string) {
    forall i :: 0 <= i < |s| ==> s[i] as int < 128 || s[i] as int == 255
  }

  lemma HeaderGood(h: Pair)
    ensures GoodHeader(h) <==>
            (forall k :: !ColonAt(h.0, k)) && '\n' !in h.0 && '\n' !in h.1 && |h.0| + |h.1| <= 8188
  {
    forall k: int ensures At(h.0, ": ", k) <==> ColonAt(h.0, k) {
      ColonIs(h.0, k);
    }
    assert |HeaderLine(h)| == |h.0| + |h.1| + 4;
    if Find(h.0, ": ", 0).None? {
      forall k ensures !ColonAt(h.0, k) {
        assert 0 <= k ==> !At(h.0, ": ", k);
      }
    }
  }

  lemma CapitalVerb(s: string)
    ensures IsVerb(s) && Upper(s) == s <==> s in {"GET", "HEAD", "POST", "PUT", "DELETE"}
  {
    if s in {"GET", "HEAD", "POST", "PUT", "DELETE"} {
      assert forall k :: 0 <= k < |s| ==> !('a' <= s[k] <= 'z');
      hide Upper;
      UpperSpells(s, s);
    }
  }

  /** The messages that are read back as they were printed. */
  lemma PrintableExactly(m: Message)
    ensures Printable(m) <==>
            && m.verb in {"GET", "HEAD", "POST", "PUT", "DELETE"}
            && (Spells(m.version, "HTTP/1.0") || Spells(m.version, "HTTP/1.1"))
            && Sendable(m.path) && (forall i :: 0 <= i < |m.query| ==> Sendable(m.query[i].0) && Sendable(m.query[i].1))
            && |RequestLine(m)| <= 8192
            && (forall i :: 0 <= i < |m.headers| ==>
                  && m.headers[i].0 != "Content-Length" && (forall k :: !ColonAt(m.headers[i].0, k))
                  && '\n' !in m.headers[i].0 && '\n' !in m.headers[i].1 && |m.headers[i].0| + |m.headers[i].1| <= 8188)
            && |m.body| < 9223372036854775808
  {
    CapitalVerb(m.verb);
    VersionExactly(m.version);
    forall s ensures Codable(s) <==> Sendable(s) {
      assert forall i :: 0 <= i < |s| ==> (UrlCodec.RoundTrips(s[i]) <==> s[i] as int < 128 || s[i] as int == 255);
    }
    forall i | 0 <= i < |m.headers|
      ensures GoodHeader(m.headers[i]) <==>
              && (forall k :: !ColonAt(m.headers[i].0, k))
              && '\n' !in m.headers[i].0 && '\n' !in m.headers[i].1 && |m.headers[i].0| + |m.headers[i].1| <= 8188
    {
      HeaderGood(m.headers[i]);
    }
  }
}
