/** What the URL-encoded form of a key is: a decoder reads it back. */
module UrlDecoding {
  import opened Redaction

  /** The value of an upper-case hexadecimal digit. */
  function HexValue(c: char): nat {
    if '0' <= c <= '9' then c as nat - '0' as nat
    else if 'A' <= c <= 'F' then 10 + (c as nat - 'A' as nat)
    else 0
  }

  /** The byte of the k-th percent triple. */
  function ByteAt(t: string, k: nat): nat
    requires 3 * k + 2 < |t|
  {
    16 * HexValue(t[3 * k + 1]) + HexValue(t[3 * k + 2])
  }

  /** How many bytes a character takes, by the first of them. */
  function Length(lead: nat): nat {
    if lead < 0x80 then 1 else if lead < 0xE0 then 2 else if lead < 0xF0 then 3 else 4
  }

  /** The code point that one to four bytes spell. */
  function CodeOf(bytes: seq<int>): int
    requires 1 <= |bytes| <= 4
  {
    match |bytes|
    case 1 => bytes[0]
    case 2 => 64 * (bytes[0] - 0xC0) + (bytes[1] - 0x80)
    case 3 => 4096 * (bytes[0] - 0xE0) + 64 * (bytes[1] - 0x80) + (bytes[2] - 0x80)
    case _ => 262144 * (bytes[0] - 0xF0) + 4096 * (bytes[1] - 0x80) + 64 * (bytes[2] - 0x80) + (bytes[3] - 0x80)
  }

  /** The first n triples. */
  function Bytes(t: string, n: nat): seq<int>
    requires 3 * n <= |t|
  {
    seq(n, k requires 0 <= k < n => ByteAt(t, k))
  }

  /** The code points of an encoded text. */
  function Decode(t: string): seq<int> {
    if t == "" then []
    else if t[0] != '%' then [t[0] as int] + Decode(t[1..])
    else if |t| < 3 || |t| < 3 * Length(ByteAt(t, 0)) then []
    else [CodeOf(Bytes(t, Length(ByteAt(t, 0))))] + Decode(t[3 * Length(ByteAt(t, 0))..])
  }

  function Codes(s: string): seq<int> {
    seq(|s|, i requires 0 <= i < |s| => s[i] as int)
  }

  lemma HexReads(n: nat)
    requires n < 16
    ensures HexValue(Hex(n)) == n
  {
  }

  lemma PercentReads(b: byte)
    ensures |Percent(b)| == 3 && Percent(b)[0] == '%'
    ensures 16 * HexValue(Percent(b)[1]) + HexValue(Percent(b)[2]) == b
  {
    HexReads(b / 16);
    HexReads(b % 16);
  }

  lemma {:induction false} TripleReads(bytes: seq<byte>, rest: string, k: nat)
    requires k < |bytes|
    ensures |PercentAll(bytes)| == 3 * |bytes|
    ensures 3 * k + 2 < |PercentAll(bytes) + rest| && ByteAt(PercentAll(bytes) + rest, k) == bytes[k]
  {
    PercentReads(bytes[0]);
    var t := PercentAll(bytes) + rest;
    assert t == Percent(bytes[0]) + (PercentAll(bytes[1..]) + rest);
    if k > 0 {
      TripleReads(bytes[1..], rest, k - 1);
      assert t[3..] == PercentAll(bytes[1..]) + rest;
      assert t[3 * k + 1] == t[3..][3 * (k - 1) + 1] && t[3 * k + 2] == t[3..][3 * (k - 1) + 2];
    } else if |bytes| > 1 {
      TripleReads(bytes[1..], rest, 0);
    }
  }

  lemma SixBits(n: nat)
    ensures 64 * (n / 64) + n % 64 == n
    ensures 64 * (n / 4096) + n / 64 % 64 == n / 64
    ensures 64 * (n / 262144) + n / 4096 % 64 == n / 4096
  {
    assert n / 64 / 64 == n / 4096;
    assert n / 4096 / 64 == n / 262144;
  }

  lemma Utf8Reads(c: char)
    ensures |Utf8(c)| == Length(Utf8(c)[0]) && CodeOf(Utf8(c)) == c as int
  {
    SixBits(c as nat);
  }

  lemma CharReads(c: char, rest: string)
    ensures Decode(EncodeChar(c) + rest) == [c as int] + Decode(rest)
  {
    var t := EncodeChar(c) + rest;
    if Unreserved(c) {
      assert t[0] == c && t[1..] == rest;
    } else {
      EscapeReads(Utf8(c), c, rest);
    }
  }

  lemma EscapeReads(bytes: seq<byte>, c: char, rest: string)
    requires bytes == Utf8(c)
    ensures Decode(PercentAll(bytes) + rest) == [c as int] + Decode(rest)
  {
    var t := PercentAll(bytes) + rest;
    Utf8Reads(c);
    forall k: nat | k < |bytes| ensures |PercentAll(bytes)| == 3 * |bytes| && ByteAt(t, k) == bytes[k] {
      TripleReads(bytes, rest, k);
    }
    PercentReads(bytes[0]);
    assert t[0] == '%';
    assert Bytes(t, |bytes|) == bytes;
    assert t[3 * |bytes|..] == rest;
  }

  /** Decoding undoes encoding, for every text. */
  lemma {:induction false} DecodingUndoesEncoding(s: string)
    ensures Decode(Encode(s)) == Codes(s)
  {
    if s == "" {
    } else {
      CharReads(s[0], Encode(s[1..]));
      DecodingUndoesEncoding(s[1..]);
      assert Codes(s) == [s[0] as int] + Codes(s[1..]);
    }
  }

  /** Letters, digits and nine marks stand for themselves, and with the percent sign make up every encoded text. */
  predicate Plain(c: char) {
    'A' <= c <= 'Z' || 'a' <= c <= 'z' || '0' <= c <= '9'
    || c == '-' || c == '_' || c == '.' || c == '!' || c == '~' || c == '*' || c == '\'' || c == '(' || c == ')'
  }

  lemma PlainIsKept(c: char)
    ensures Plain(c) <==> EncodeChar(c) == [c]
    ensures Plain(c) <==> Unreserved(c)
  {
    EncodeCharShape(c);
    if !Unreserved(c) {
      PercentReads(Utf8(c)[0]);
    }
  }

  lemma HexIsPlain(n: nat)
    requires n < 16
    ensures Plain(Hex(n))
  {
  }

  lemma {:induction false} EscapeAlphabet(bytes: seq<byte>)
    ensures forall c | c in PercentAll(bytes) :: Plain(c) || c == '%'
  {
    if bytes == [] {
    } else {
      HexIsPlain(bytes[0] / 16);
      HexIsPlain(bytes[0] % 16);
      EscapeAlphabet(bytes[1..]);
    }
  }

  lemma {:induction false} EncodedAlphabet(s: string)
    ensures forall c | c in Encode(s) :: Plain(c) || c == '%'
  {
    if s == "" {
    } else {
      PlainIsKept(s[0]);
      EscapeAlphabet(Utf8(s[0]));
      EncodedAlphabet(s[1..]);
    }
  }
}
