/** Percent encoding (RFC 3986, sections 2.1 and 2.3) as Util::UrlEncode and Util::UrlDecode do it. */
module UrlCodec {
  import opened Text

  predicate IsAlnum(c: char) {
    '0' <= c <= '9' || 'a' <= c <= 'z' || 'A' <= c <= 'Z'
  }

  predicate Unreserved(c: char) {
    c == '.' || c == '-' || c == '_' || c == '~' || IsAlnum(c)
  }

  function HexDigit(d: nat): char
    requires d < 16
  {
    if d < 10 then ('0' as int + d) as char else ('A' as int + d - 10) as char
  }

  function HexDigits(v: nat): string {
    if v < 16 then [HexDigit(v)] else HexDigits(v / 16) + [HexDigit(v % 16)]
  }

  /** A `char` passed to a variadic function: bytes from 128 up are sign-extended to 32 bits. */
  function Promote(c: char): nat {
    if c as int < 128 then c as int else 0xFFFF_FF00 + c as int % 256
  }

  /** snprintf(tmp, 4, "%%%02X", c): two digits at least, and at most three characters kept. */
  function PercentHex(c: char): string {
    var digits := HexDigits(Promote(c));
    var text := "%" + (if |digits| < 2 then "0" + digits else digits);
    if |text| <= 3 then text else text[..3]
  }

  function EncodeChar(c: char, spaceToPlus: bool): string {
    if Unreserved(c) then [c]
    else if c == ' ' && spaceToPlus then "+"
    else PercentHex(c)
  }

  function Encode(s: string, spaceToPlus: bool): string {
    if s == "" then "" else EncodeChar(s[0], spaceToPlus) + Encode(s[1..], spaceToPlus)
  }

  /** HEXTOI: any letter is accepted, not only a hexadecimal one. */
  function HexToI(c: char): (v: int)
    ensures -1 <= v < 36
  {
    if '0' <= c <= '9' then c as int - '0' as int
    else if 'a' <= c <= 'z' then c as int - 'a' as int + 10
    else if 'A' <= c <= 'Z' then c as int - 'A' as int + 10
    else -1
  }

  /** `char v = v1 * 16 + v2`, truncated to 8 bits. */
  function HexByte(hi: char, lo: char): char {
    ((HexToI(hi) * 16 + HexToI(lo)) % 256) as char
  }

  function Decode(s: string, plusToSpace: bool): string
    decreases |s|
  {
    if s == "" then ""
    else if s[0] == '+' && plusToSpace then " " + Decode(s[1..], plusToSpace)
    else if s[0] == '%' && 2 < |s| then [HexByte(s[1], s[2])] + Decode(s[3..], plusToSpace)
    else [s[0]] + Decode(s[1..], plusToSpace)
  }

  lemma EncodeStep(res: string, s: string, i: nat, b: bool)
    requires i < |s|
    ensures res + Encode(s[i..], b) == (res + EncodeChar(s[i], b)) + Encode(s[i + 1..], b)
  {
    SliceTail(s, i, 1);
    Assoc(res, EncodeChar(s[i], b), Encode(s[i + 1..], b));
  }

  method UrlEncode(url: string, spaceToPlus: bool) returns (res: string)
    ensures res == Encode(url, spaceToPlus)
  {
    res := "";
    assert url[0..] == url;
    for i := 0 to |url|
      invariant res + Encode(url[i..], spaceToPlus) == Encode(url, spaceToPlus)
    {
      var c := url[i];
      EncodeStep(res, url, i, spaceToPlus);
      if Unreserved(c) {
        res := res + [c];
        continue;
      }
      if c == ' ' && spaceToPlus {
        res := res + "+";
        continue;
      }
      res := res + PercentHex(c);
    }
  }

  /** How many characters the decoding step at position i consumes, and what it yields. */
  function DecodeUnit(s: string, i: nat, plusToSpace: bool): (r: (nat, char))
    requires i < |s|
    ensures 1 <= r.0 <= |s| - i
  {
    if s[i] == '+' && plusToSpace then (1, ' ')
    else if s[i] == '%' && i + 2 < |s| then (3, HexByte(s[i + 1], s[i + 2]))
    else (1, s[i])
  }

  lemma DecodeFirst(s: string, b: bool)
    requires s != ""
    ensures var (n, c) := DecodeUnit(s, 0, b);
            Decode(s, b) == [c] + Decode(s[n..], b)
  {
  }

  lemma DecodeStep(res: string, s: string, i: nat, b: bool)
    requires i < |s|
    ensures var (n, c) := DecodeUnit(s, i, b);
            res + Decode(s[i..], b) == (res + [c]) + Decode(s[i + n..], b)
  {
    var (n, c) := DecodeUnit(s, i, b);
    DecodeFirst(s[i..], b);
    SliceTail(s, i, n);
    Assoc(res, [c], Decode(s[i + n..], b));
  }

  /** Two digits to one byte, as UrlDecode computes it. */
  method HexPair(hi: char, lo: char) returns (v: char)
    ensures v == HexByte(hi, lo)
  {
    var v1 := HexToI(hi);
    var v2 := HexToI(lo);
    v := ((v1 * 16 + v2) % 256) as char;
  }

  method UrlDecode(url: string, plusToSpace: bool) returns (res: string)
    ensures res == Decode(url, plusToSpace)
  {
    res := "";
    var i := 0;
    assert url[0..] == url;
    while i < |url|
      invariant 0 <= i <= |url|
      invariant res + Decode(url[i..], plusToSpace) == Decode(url, plusToSpace)
    {
      DecodeStep(res, url, i, plusToSpace);
      if url[i] == '+' && plusToSpace {
        res := res + " ";
        i := i + 1;
        continue;
      }
      if url[i] == '%' && i + 2 < |url| {
        var v := HexPair(url[i + 1], url[i + 2]);
        res := res + [v];
        i := i + 3;
        continue;
      }
      res := res + [url[i]];
      i := i + 1;
    }
  }

  // ------------------------------------------------------------- properties

  /** Dropping the last hexadecimal digit keeps the leading ones. */
  lemma HexDrop(v: nat)
    requires v >= 16
    ensures HexDigits(v) == HexDigits(v / 16) + [HexDigit(v % 16)]
  {
  }

  /** A sign-extended byte prints as eight digits starting FF. */
  lemma HexLead(v: nat)
    requires 0xFFFF_FF00 <= v <= 0xFFFF_FFFF
    ensures |HexDigits(v)| >= 2 && HexDigits(v)[..2] == "FF"
  {
    HexDrop(v);
    HexDrop(v / 16);
    var u := v / 16 / 16;
    assert u == 0xFF_FFFF;
    HexDrop(0xFF_FFFF);
    HexDrop(0xF_FFFF);
    HexDrop(0xFFFF);
    HexDrop(0xFFF);
    HexDrop(0xFF);
    assert HexDigits(0xF) == "F";
  }

  /** A byte from 128 up prints as eight digits; the four-character buffer keeps only "%FF". */
  lemma PercentHexForm(c: char)
    ensures PercentHex(c) ==
            if c as int < 128 then ['%', HexDigit(c as int / 16), HexDigit(c as int % 16)] else "%FF"
  {
    var v := Promote(c);
    if c as int >= 128 {
      HexLead(v);
      assert ("%" + HexDigits(v))[..3] == "%" + HexDigits(v)[..2];
    } else if v >= 16 {
      HexDrop(v);
    }
  }

  /** What a character comes back as: 0..127 as itself, every other byte as 255. */
  function Survivor(c: char): char {
    if c as int < 128 then c else 255 as char
  }

  function Survivors(s: string): string {
    if s == "" then "" else [Survivor(s[0])] + Survivors(s[1..])
  }

  lemma HexPairDecodes(c: char, e: string)
    requires e == if c as int < 128 then ['%', HexDigit(c as int / 16), HexDigit(c as int % 16)] else "%FF"
    ensures HexByte(e[1], e[2]) == Survivor(c)
  {
    if c as int < 128 {
      var hi, lo := c as int / 16, c as int % 16;
      HexByteValue(hi, lo);
      assert hi * 16 + lo == c as int;
    } else {
      assert e[1] == 'F' && e[2] == 'F';
    }
  }

  lemma HexByteValue(hi: nat, lo: nat)
    requires hi < 16 && lo < 16
    ensures HexByte(HexDigit(hi), HexDigit(lo)) as int == hi * 16 + lo
  {
    hide HexToI, HexDigit;
    HexDigitValue(hi);
    HexDigitValue(lo);
  }

  lemma HexDigitValue(d: nat)
    requires d < 16
    ensures HexToI(HexDigit(d)) == d
  {
  }

  lemma DecodeEncodeChar(c: char, b: bool, rest: string)
    ensures Decode(EncodeChar(c, b) + rest, b) == [Survivor(c)] + Decode(rest, b)
  {
    PercentHexForm(c);
    var e := EncodeChar(c, b);
    DecodeFirst(e + rest, b);
    if |e| == 1 {
      assert (e + rest)[1..] == rest;
    } else {
      HexPairDecodes(c, e);
      assert (e + rest)[3..] == rest;
    }
  }

  /** What any text becomes after encoding and decoding. */
  lemma {:induction false} DecodeEncode(s: string, b: bool)
    ensures Decode(Encode(s, b), b) == Survivors(s)
  {
    if s != "" {
      DecodeEncodeChar(s[0], b, Encode(s[1..], b));
      DecodeEncode(s[1..], b);
    }
  }

  predicate RoundTrips(c: char) {
    c as int < 128 || c as int == 255
  }

  lemma {:induction false} SurvivorsAt(s: string)
    ensures |Survivors(s)| == |s|
    ensures forall i :: 0 <= i < |s| ==> Survivors(s)[i] == Survivor(s[i])
  {
    if s != "" {
      SurvivorsAt(s[1..]);
    }
  }

  /** Decoding undoes encoding exactly for texts over the bytes 0..127 and 255. */
  lemma UrlRoundTrip(s: string, b: bool)
    ensures Decode(Encode(s, b), b) == s <==> forall i :: 0 <= i < |s| ==> RoundTrips(s[i])
  {
    DecodeEncode(s, b);
    SurvivorsAt(s);
  }

  /** Encoded text consists of unreserved characters, '%' and '+' only. */
  predicate Plain(c: char) {
    Unreserved(c) || c == '%' || c == '+'
  }

  lemma {:induction false} EncodedIsPlain(s: string, b: bool)
    ensures forall i :: 0 <= i < |Encode(s, b)| ==> Plain(Encode(s, b)[i])
  {
    if s != "" {
      EncodedIsPlain(s[1..], b);
      PercentHexForm(s[0]);
    }
  }

  // ------------------------------------------------------- in literal digits

  lemma UpperDigit(c: char, v: nat)
    requires v < 16 && c == "0123456789ABCDEF"[v]
    ensures c == HexDigit(v) && HexToI(c) == v
  {
  }

  lemma LowerDigit(c: char, v: nat)
    requires v < 16 && c == "0123456789abcdef"[v]
    ensures HexToI(c) == v
  {
  }

  /** A percent sign and two hexadecimal digits, in either letter case, are the byte they name. */
  lemma EscapeExactly(h: char, l: char, hi: nat, lo: nat, rest: string, b: bool)
    requires hi < 16 && (h == "0123456789ABCDEF"[hi] || h == "0123456789abcdef"[hi])
    requires lo < 16 && (l == "0123456789ABCDEF"[lo] || l == "0123456789abcdef"[lo])
    ensures Decode(['%', h, l] + rest, b) == [(16 * hi + lo) as char] + Decode(rest, b)
  {
    hide HexToI, Decode;
    DigitReads(h, hi);
    DigitReads(l, lo);
    EscapeReads(h, l, rest, b);
  }

  lemma DigitReads(c: char, v: nat)
    requires v < 16 && (c == "0123456789ABCDEF"[v] || c == "0123456789abcdef"[v])
    ensures HexToI(c) == v
  {
    if c == "0123456789ABCDEF"[v] {
      UpperDigit(c, v);
    } else {
      LowerDigit(c, v);
    }
  }

  lemma EscapeReads(h: char, l: char, rest: string, b: bool)
    ensures Decode(['%', h, l] + rest, b) == [((HexToI(h) * 16 + HexToI(l)) % 256) as char] + Decode(rest, b)
  {
    var s := ['%', h, l] + rest;
    assert s[1] == h && s[2] == l && s[3..] == rest;
  }

  /** Letters beyond f go on counting, in either case, and anything else counts as -1. */
  lemma HexToIExactly(c: char, k: nat)
    ensures k < 26 && (c as int == 65 + k || c as int == 97 + k) ==> HexToI(c) == 10 + k
    ensures k < 10 && c as int == 48 + k ==> HexToI(c) == k
    ensures HexToI(c) == -1 <==> !(48 <= c as int <= 57 || 65 <= c as int <= 90 || 97 <= c as int <= 122)
  {
  }

  /** Every other character stands for itself, but '+' for a space where asked; so does an escape cut short. */
  lemma PlainExactly(c: char, rest: string, b: bool)
    requires c == '%' ==> |rest| < 2
    ensures Decode([c] + rest, b) == [if c == '+' && b then ' ' else c] + Decode(rest, b)
  {
    var s := [c] + rest;
    assert s[0] == c && s[1..] == rest;
  }

  /** Letters, digits and "-._~" are left alone, a space may become '+', and everything else is escaped. */
  lemma EncodeExactly(c: char, b: bool)
    ensures var plain := 'A' <= c <= 'Z' || 'a' <= c <= 'z' || '0' <= c <= '9' || c in "-._~";
            EncodeChar(c, b) ==
            if plain then [c] else if c == ' ' && b then "+"
            else if c as int < 128 then ['%', "0123456789ABCDEF"[c as int / 16], "0123456789ABCDEF"[c as int % 16]]
            else "%FF"
  {
    PercentHexForm(c);
    if c as int < 128 {
      UpperDigit("0123456789ABCDEF"[c as int / 16], c as int / 16);
      UpperDigit("0123456789ABCDEF"[c as int % 16], c as int % 16);
    }
    assert "-._~"[0] == '-' && "-._~"[1] == '.' && "-._~"[2] == '_' && "-._~"[3] == '~';
  }
}
