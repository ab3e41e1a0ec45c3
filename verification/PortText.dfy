/** What `parsePortsSetting` reads from a written setting: numbers and ranges with white space around them, and junk. */
module PortText {
  import opened Basics
  import opened Text
  import opened PortList

  /** A range may have white space on either side of its dash. Junk is anything else without a comma. */
  datatype PortToken =
    | One(n: nat)
    | Range(a: nat, before: string, after: string, b: nat)
    | Junk(text: string)

  datatype Written = Written(lead: string, token: PortToken, trail: string)

  function Core(token: PortToken): string {
    match token
    case One(n) => Decimal(n)
    case Range(a, before, after, b) => Decimal(a) + before + "-" + after + Decimal(b)
    case Junk(text) => text
  }

  function TokenText(w: Written): string { w.lead + Core(w.token) + w.trail }

  /** Junk is empty, or starts with none of the characters a number can start with. */
  predicate WellWritten(w: Written, infinity: int) {
    && AllSpace(w.lead) && AllSpace(w.trail) && ',' !in w.lead && ',' !in w.trail
    && match w.token
       case One(n) => n < infinity
       case Range(a, before, after, b) =>
         a < infinity && b < infinity && AllSpace(before) && AllSpace(after) && ',' !in before && ',' !in after
       case Junk(text) =>
         && Tight(text) && ',' !in text
         && (text != "" ==> !IsDigit(text[0]) && text[0] != '+' && text[0] != '-')
  }

  function Texts(tokens: seq<Written>): seq<string> {
    seq(|tokens|, i requires 0 <= i < |tokens| => TokenText(tokens[i]))
  }

  function Render(tokens: seq<Written>): string { Join(Texts(tokens), ",") }

  /** The token names the port. */
  predicate Names(token: PortToken, port: int) {
    match token
    case One(n) => port == n
    case Range(a, _, _, b) => a <= port <= b || b <= port <= a
    case Junk(_) => false
  }

  // ---------------------------------------------------------------- numerals

  lemma DigitReads(d: nat)
    requires d < 10
    ensures IsDigit(Digit(d)) && Digit(d) as int - '0' as int == d
    ensures !IsSpace(Digit(d)) && Digit(d) != '-' && Digit(d) != '+' && Digit(d) != ','
  {
  }

  /** A numeral consists of digits and reads as the number it was written for. */
  lemma {:induction false} DecimalReads(n: nat)
    ensures Decimal(n) != "" && DigitsValue(Decimal(n)) == n
    ensures forall i | 0 <= i < |Decimal(n)| :: IsDigit(Decimal(n)[i])
  {
    DigitReads(n % 10);
    if n < 10 {
      assert Decimal(n)[..0] == "";
    } else {
      DecimalReads(n / 10);
      var s := Decimal(n);
      assert s[..|s| - 1] == Decimal(n / 10) && s[|s| - 1] == Digit(n % 10);
    }
  }

  lemma {:induction false} PrefixOfDigits(s: string, rest: string)
    requires (forall i | 0 <= i < |s| :: IsDigit(s[i])) && (rest == "" || !IsDigit(rest[0]))
    ensures DigitPrefix(s + rest) == s
  {
    if s == "" {
      assert s + rest == rest;
    } else {
      assert (s + rest)[1..] == s[1..] + rest;
      PrefixOfDigits(s[1..], rest);
    }
  }

  predicate Sign(s: string) { s == "" || s == "+" || s == "-" }

  lemma DigitIsPlain(c: char)
    requires IsDigit(c)
    ensures !IsSpace(c) && c != '-' && c != '+' && c != ','
  {
  }

  function Signed(sign: string, n: nat): int { if sign == "-" then -(n as int) else n as int }

  lemma LeadIsIgnored(lead: string, s: string, infinity: int)
    requires AllSpace(lead)
    ensures ParseInteger(lead + s, infinity) == ParseInteger(s, infinity)
  {
    TrimLead(lead, s);
  }

  lemma NumeralReads(n: nat, rest: string, infinity: int)
    requires (rest == "" || !IsDigit(rest[0])) && n < infinity
    ensures Decimal(n) + rest != "" && IsDigit((Decimal(n) + rest)[0])
    ensures ParseTrimmed(Decimal(n) + rest, infinity) == Some(n)
  {
    DecimalReads(n);
    DigitIsPlain(Decimal(n)[0]);
    PrefixOfDigits(Decimal(n), rest);
  }

  /** A numeral that reads as infinity is no integer. */
  lemma HugeNumeralReads(n: nat, rest: string, infinity: int)
    requires (rest == "" || !IsDigit(rest[0])) && n >= infinity
    ensures ParseTrimmed(Decimal(n) + rest, infinity) == None
  {
    DecimalReads(n);
    DigitIsPlain(Decimal(n)[0]);
    PrefixOfDigits(Decimal(n), rest);
  }

  lemma SignedReads(sign: char, n: nat, rest: string, infinity: int)
    requires (sign == '+' || sign == '-') && (rest == "" || !IsDigit(rest[0])) && n < infinity
    ensures ParseTrimmed([sign] + (Decimal(n) + rest), infinity) == Some(Signed([sign], n))
  {
    var t := [sign] + (Decimal(n) + rest);
    assert t[1..] == Decimal(n) + rest;
    DecimalReads(n);
    PrefixOfDigits(Decimal(n), rest);
  }

  /** A sign, a numeral, and whatever is no digit after it: read as the number, with its sign. */
  lemma IntegerReads(sign: string, n: nat, rest: string, infinity: int)
    requires Sign(sign) && (rest == "" || !IsDigit(rest[0])) && n < infinity
    ensures ParseInteger(sign + Decimal(n) + rest, infinity) == Some(Signed(sign, n))
  {
    var s := Decimal(n) + rest;
    assert sign + Decimal(n) + rest == sign + s;
    NumeralReads(n, rest, infinity);
    if sign == "" {
      assert sign + s == s;
      DigitIsPlain(s[0]);
      assert TrimStart(s) == s;
    } else {
      assert sign == [sign[0]];
      assert TrimStart(sign + s) == sign + s;
      SignedReads(sign[0], n, rest, infinity);
    }
  }

  lemma JunkReads(text: string, infinity: int)
    requires Tight(text) && (text != "" ==> !IsDigit(text[0]) && text[0] != '+' && text[0] != '-')
    ensures ParseInteger(text, infinity) == None
  {
    assert TrimStart(text) == text;
  }

  // ---------------------------------------------------------------- tokens

  lemma CoreIsTight(w: Written, infinity: int)
    requires WellWritten(w, infinity)
    ensures Trim(TokenText(w)) == Core(w.token) && ',' !in TokenText(w)
    ensures w.token.One? || w.token.Range? ==> Core(w.token) != ""
  {
    match w.token {
      case One(n) =>
        DecimalIsPlain(n);
      case Range(a, before, after, b) =>
        DecimalIsPlain(a);
        DecimalIsPlain(b);
        var core := Core(w.token);
        assert core[0] == Decimal(a)[0] && core[|core| - 1] == Decimal(b)[|Decimal(b)| - 1];
      case Junk(text) =>
    }
    TrimPads(w.lead, Core(w.token), w.trail);
  }

  lemma DecimalIsPlain(n: nat)
    ensures Decimal(n) != "" && Tight(Decimal(n)) && ',' !in Decimal(n) && '-' !in Decimal(n)
  {
    DecimalReads(n);
    forall i | 0 <= i < |Decimal(n)| ensures !IsSpace(Decimal(n)[i]) && Decimal(n)[i] != ',' && Decimal(n)[i] != '-' {
      DigitIsPlain(Decimal(n)[i]);
    }
  }

  lemma OneSpan(n: nat, infinity: int)
    requires n < infinity
    ensures SpanOfTrimmed(Decimal(n), infinity) == Some((n, n))
  {
    DecimalIsPlain(n);
    IntegerReads("", n, "", infinity);
    assert "" + Decimal(n) + "" == Decimal(n);
  }

  /** The two parts of a written range. */
  lemma RangeParts(a: nat, before: string, after: string, b: nat)
    requires AllSpace(before) && AllSpace(after)
    ensures var parts := Split(Decimal(a) + before + "-" + after + Decimal(b), '-');
      |parts| == 2 && parts[0] == Decimal(a) + before && parts[1] == after + Decimal(b)
  {
    var first, second := Decimal(a) + before, after + Decimal(b);
    DecimalIsPlain(a);
    DecimalIsPlain(b);
    forall c | IsSpace(c) ensures c != '-' {
    }
    assert '-' !in before && '-' !in after;
    var parts := [first, second];
    assert Join(parts, "-") == first + "-" + second == Decimal(a) + before + "-" + after + Decimal(b);
    SplitJoin(parts, '-');
  }

  lemma NumeralThenSpace(n: nat, trail: string, infinity: int)
    requires AllSpace(trail) && n < infinity
    ensures ParseInteger(Decimal(n) + trail, infinity) == Some(n)
  {
    if trail != "" {
      assert IsSpace(trail[0]);
      assert !IsDigit(trail[0]);
    }
    IntegerReads("", n, trail, infinity);
    assert "" + Decimal(n) + trail == Decimal(n) + trail;
  }

  lemma SpaceThenNumeral(lead: string, n: nat, infinity: int)
    requires AllSpace(lead) && n < infinity
    ensures ParseInteger(lead + Decimal(n), infinity) == Some(n)
  {
    LeadIsIgnored(lead, Decimal(n), infinity);
    IntegerReads("", n, "", infinity);
    assert "" + Decimal(n) + "" == Decimal(n);
  }

  /** A range may be written in either order. */
  lemma RangeSpan(a: nat, before: string, after: string, b: nat, infinity: int)
    requires AllSpace(before) && AllSpace(after) && a < infinity && b < infinity
    ensures SpanOfTrimmed(Decimal(a) + before + "-" + after + Decimal(b), infinity) ==
      Some(if a <= b then (a, b) else (b, a))
  {
    var text := Decimal(a) + before + "-" + after + Decimal(b);
    assert text[|Decimal(a) + before|] == '-';
    RangeParts(a, before, after, b);
    NumeralThenSpace(a, before, infinity);
    SpaceThenNumeral(after, b, infinity);
  }

  lemma JunkSpan(text: string, infinity: int)
    requires Tight(text) && (text != "" ==> !IsDigit(text[0]) && text[0] != '+' && text[0] != '-')
    ensures SpanOfTrimmed(text, infinity) == None
  {
    if text == "" {
    } else if '-' in text {
      FindIn(text, '-');
      var first := Split(text, '-')[0];
      assert first == text[..Find(text, '-')] && first != "" && first[0] == text[0];
      assert TrimStart(first) == first;
      assert ParseInteger(first, infinity) == None;
    } else {
      JunkReads(text, infinity);
    }
  }

  function SpanOfToken(token: PortToken): Option<(int, int)> {
    match token
    case One(n) => Some((n, n))
    case Range(a, _, _, b) => Some(if a <= b then (a, b) else (b, a))
    case Junk(_) => None
  }

  lemma TokenSpan(w: Written, infinity: int)
    requires WellWritten(w, infinity)
    ensures Span(TokenText(w), infinity) == SpanOfToken(w.token)
  {
    CoreIsTight(w, infinity);
    match w.token {
      case One(n) => OneSpan(n, infinity);
      case Range(a, before, after, b) => RangeSpan(a, before, after, b, infinity);
      case Junk(text) => JunkSpan(text, infinity);
    }
  }

  /** A written token covers exactly the ports it names, within the port range. */
  lemma TokenReads(w: Written, port: int, infinity: int)
    requires WellWritten(w, infinity)
    ensures TokenCovers(TokenText(w), port, infinity) <==> 1 <= port <= 65535 && Names(w.token, port)
  {
    TokenSpan(w, infinity);
  }

  // ---------------------------------------------------------------- settings

  lemma RenderedTokens(tokens: seq<Written>, infinity: int)
    requires tokens != [] && forall i | 0 <= i < |tokens| :: WellWritten(tokens[i], infinity)
    ensures Split(Render(tokens), ',') == Texts(tokens)
  {
    forall i | 0 <= i < |tokens| ensures ',' !in Texts(tokens)[i] {
      CoreIsTight(tokens[i], infinity);
    }
    SplitJoin(Texts(tokens), ',');
  }

  ghost predicate Named(tokens: seq<Written>, port: int) {
    1 <= port <= 65535 && exists i :: 0 <= i < |tokens| && Names(tokens[i].token, port)
  }

  lemma CoveredIsNamed(tokens: seq<Written>, port: int, infinity: int)
    requires tokens != [] && forall i | 0 <= i < |tokens| :: WellWritten(tokens[i], infinity)
    ensures Covered(Split(Render(tokens), ','), port, infinity) <==> Named(tokens, port)
  {
    RenderedTokens(tokens, infinity);
    forall i | 0 <= i < |tokens|
      ensures TokenCovers(Texts(tokens)[i], port, infinity) <==> 1 <= port <= 65535 && Names(tokens[i].token, port)
    {
      TokenReads(tokens[i], port, infinity);
    }
  }

  lemma SettingCovers(tokens: seq<Written>, infinity: int)
    requires tokens != [] && forall i | 0 <= i < |tokens| :: WellWritten(tokens[i], infinity)
    ensures forall p :: Covered(Split(Render(tokens), ','), p, infinity) <==> Named(tokens, p)
  {
    forall p ensures Covered(Split(Render(tokens), ','), p, infinity) <==> Named(tokens, p) {
      CoveredIsNamed(tokens, p, infinity);
    }
  }

  /**
   The list scanned for a written setting: exactly the ports its numbers and ranges name, in strictly
   increasing order, or the standard list when they name none.
   */
  method ReadSetting(tokens: seq<Written>, infinity: int) returns (ports: seq<int>)
    requires tokens != [] && forall i | 0 <= i < |tokens| :: WellWritten(tokens[i], infinity)
    ensures Lists(ports, p => Named(tokens, p), STANDARD_PORTS)
  {
    SettingCovers(tokens, infinity);
    ports := ParsePortsSetting(Render(tokens), infinity);
    ListsTheSame(ports, p => Covered(Split(Render(tokens), ','), p, infinity), p => Named(tokens, p), STANDARD_PORTS);
  }
}
