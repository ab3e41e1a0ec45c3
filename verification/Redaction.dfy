/** `redactApiKey` in backend/scan/features.js: the key and its URL-encoded form are cut out of a text. */
module Redaction {
  import opened Text

  const MARK := "***REDACTED***"
  const WORD := "REDACTED"

  ghost predicate At(s: string, i: nat, needle: string) {
    i + |needle| <= |s| && s[i..i + |needle|] == needle
  }

  ghost predicate Contains(s: string, needle: string) {
    exists i: nat :: At(s, i, needle)
  }

  /** Cuts at every occurrence, leftmost first, without overlaps. */
  function SplitOn(s: string, key: string): (parts: seq<string>)
    requires key != ""
    ensures parts != []
    decreases |s|
  {
    if |s| < |key| then [s]
    else if s[..|key|] == key then [""] + SplitOn(s[|key|..], key)
    else
      var rest := SplitOn(s[1..], key);
      [[s[0]] + rest[0]] + rest[1..]
  }

  // ---------------------------------------------------------------- encodeURIComponent

  predicate Unreserved(c: char) {
    'A' <= c <= 'Z' || 'a' <= c <= 'z' || '0' <= c <= '9' || c in "-_.!~*'()"
  }

  function Hex(n: nat): char
    requires n < 16
  {
    ['0', '1', '2', '3', '4', '5', '6', '7', '8', '9', 'A', 'B', 'C', 'D', 'E', 'F'][n]
  }

  type byte = n: nat | n < 256

  function Percent(b: byte): string {
    ['%', Hex(b / 16), Hex(b % 16)]
  }

  function PercentAll(bytes: seq<byte>): string {
    if bytes == [] then "" else Percent(bytes[0]) + PercentAll(bytes[1..])
  }

  function Utf8(c: char): seq<byte> {
    var n := c as int;
    if n < 0x80 then [n]
    else if n < 0x800 then [0xC0 + n / 64, 0x80 + n % 64]
    else if n < 0x10000 then [0xE0 + n / 4096, 0x80 + n / 64 % 64, 0x80 + n % 64]
    else [0xF0 + n / 262144, 0x80 + n / 4096 % 64, 0x80 + n / 64 % 64, 0x80 + n % 64]
  }

  /** A character as it is, or the bytes of its UTF-8 form, each as a percent triple. */
  function EncodeChar(c: char): string {
    if Unreserved(c) then [c] else PercentAll(Utf8(c))
  }

  function Encode(s: string): string {
    if s == "" then "" else EncodeChar(s[0]) + Encode(s[1..])
  }

  function Redact(value: string, key: string): string {
    if key == "" then value
    else
      EncodeNonEmpty(key);
      Join(SplitOn(Join(SplitOn(value, key), MARK), Encode(key)), MARK)
  }

  lemma EncodeNonEmpty(s: string)
    requires s != ""
    ensures Encode(s) != ""
  {
  }

  // ---------------------------------------------------------------- splitting

  /** Rejoined with the key the parts give back the text: redaction replaces the key and nothing else. */
  lemma {:induction false} SplitOnExact(s: string, key: string)
    requires key != ""
    ensures Join(SplitOn(s, key), key) == s
    decreases |s|
  {
    if |s| >= |key| {
      if s[..|key|] == key {
        SplitOnExact(s[|key|..], key);
        JoinCut(SplitOn(s[|key|..], key), key);
        assert s == key + s[|key|..];
      } else {
        var rest := SplitOn(s[1..], key);
        SplitOnExact(s[1..], key);
        JoinHead([s[0]], rest, key);
      }
    }
  }

  /**
   The text between the occurrences is kept: the parts around the key are rejoined with the mark, and
   then the parts around the encoded key are.
   */
  lemma OnlyTheKeyIsReplaced(value: string, key: string) returns (parts: seq<string>, more: seq<string>)
    requires key != ""
    ensures Join(parts, key) == value && (forall p | p in parts :: !Contains(p, key))
    ensures Join(more, Encode(key)) == Join(parts, MARK) && (forall p | p in more :: !Contains(p, Encode(key)))
    ensures Redact(value, key) == Join(more, MARK)
  {
    EncodeNonEmpty(key);
    parts := SplitOn(value, key);
    SplitOnExact(value, key);
    PartsAreClean(value, key);
    more := SplitOn(Join(parts, MARK), Encode(key));
    SplitOnExact(Join(parts, MARK), Encode(key));
    PartsAreClean(Join(parts, MARK), Encode(key));
  }

  lemma JoinCut(parts: seq<string>, sep: string)
    requires parts != []
    ensures Join([""] + parts, sep) == sep + Join(parts, sep)
  {
    assert ([""] + parts)[1..] == parts;
    assert "" + sep == sep;
  }

  lemma JoinHead(head: string, parts: seq<string>, sep: string)
    requires parts != []
    ensures Join([head + parts[0]] + parts[1..], sep) == head + Join(parts, sep)
  {
    assert ([head + parts[0]] + parts[1..])[1..] == parts[1..];
    if |parts| > 1 {
      assert head + parts[0] + sep + Join(parts[1..], sep) == head + (parts[0] + sep + Join(parts[1..], sep));
    }
  }

  lemma AtShift(s: string, i: nat, needle: string)
    requires 0 < i && s != ""
    ensures At(s, i, needle) <==> At(s[1..], i - 1, needle)
  {
    if i + |needle| <= |s| {
      assert s[1..][i - 1..i - 1 + |needle|] == s[i..i + |needle|];
    }
  }

  /** The first part is a prefix of the text, with the key right after it if anything was cut. */
  lemma {:induction false} FirstPart(s: string, key: string)
    requires key != ""
    ensures var parts := SplitOn(s, key);
      && |parts[0]| <= |s| && s[..|parts[0]|] == parts[0]
      && (|parts| == 1 ==> parts[0] == s)
      && (forall i: nat | i < |parts[0]| :: !At(s, i, key))
    decreases |s|
  {
    if |s| >= |key| && s[..|key|] != key {
      FirstPart(s[1..], key);
      forall i: nat | i < |SplitOn(s, key)[0]| ensures !At(s, i, key) {
        if i > 0 {
          AtShift(s, i, key);
        }
      }
    }
  }

  /** No part contains the key, and a part contains nothing the text did not. */
  lemma {:induction false} PartsAreClean(s: string, key: string)
    requires key != ""
    ensures forall p | p in SplitOn(s, key) :: !Contains(p, key)
    ensures forall p, n | p in SplitOn(s, key) && Contains(p, n) :: Contains(s, n)
    decreases |s|
  {
    var parts := SplitOn(s, key);
    FirstPart(s, key);
    if i: nat :| At(parts[0], i, key) {
      assert parts[0][i..i + |key|] == s[i..i + |key|];
      assert At(s, i, key);
    }
    forall n | Contains(parts[0], n) ensures Contains(s, n) {
      PrefixContains(s, |parts[0]|, n);
    }
    if |s| >= |key| {
      var from := if s[..|key|] == key then |key| else 1;
      PartsAreClean(s[from..], key);
      forall p | p in parts[1..] ensures p in SplitOn(s[from..], key) {
      }
      forall n | Contains(s[from..], n) ensures Contains(s, n) {
        SuffixContains(s, from, n);
      }
    }
  }

  lemma PrefixContains(s: string, k: nat, n: string)
    requires k <= |s| && Contains(s[..k], n)
    ensures Contains(s, n)
  {
    var i: nat :| At(s[..k], i, n);
    assert s[i..i + |n|] == s[..k][i..i + |n|];
    assert At(s, i, n);
  }

  lemma SuffixContains(s: string, k: nat, n: string)
    requires k <= |s| && Contains(s[k..], n)
    ensures Contains(s, n)
  {
    var i: nat :| At(s[k..], i, n);
    assert s[k + i..k + i + |n|] == s[k..][i..i + |n|];
    assert At(s, k + i, n);
  }

  // ---------------------------------------------------------------- joining

  /** A needle that can neither lie in the mark, nor around it, nor straddle one of its ends. */
  ghost predicate ApartFromMark(n: string) {
    && n != ""
    && !Contains(MARK, n)
    && !Contains(n, MARK)
    && (forall i | 0 < i < |n| :: !(n[i..] <= MARK))
    && (forall i | 0 < i < |n| :: !EndsWith(MARK, n[..i]))
  }

  predicate EndsWith(s: string, tail: string) {
    |tail| <= |s| && s[|s| - |tail|..] == tail
  }

  /** An occurrence that overlaps a mark shows the needle is not apart from it. */
  lemma Overlap(a: string, rest: string, n: string, i: nat)
    requires At(a + MARK + rest, i, n) && i + |n| > |a| && i < |a| + |MARK|
    ensures !ApartFromMark(n)
  {
    var t, m := a + MARK + rest, |MARK|;
    var p, q := |a|, |a| + m;
    assert t[p..q] == MARK;
    if i < p && i + |n| <= q {
      assert n[p - i..] == t[p..i + |n|] == MARK[..i + |n| - p];
      assert n[p - i..] <= MARK;
    } else if i < p {
      assert n[p - i..p - i + m] == t[p..q];
      assert At(n, p - i, MARK);
    } else if i + |n| <= q {
      assert MARK[i - p..i - p + |n|] == t[i..i + |n|];
      assert At(MARK, i - p, n);
    } else {
      assert n[..q - i] == t[i..q] == MARK[i - p..];
      assert EndsWith(MARK, n[..q - i]);
    }
  }

  /** Joining clean parts with the mark creates no occurrence, across joins either. */
  lemma {:induction false} JoinIsClean(parts: seq<string>, n: string)
    requires ApartFromMark(n)
    requires forall p | p in parts :: !Contains(p, n)
    ensures !Contains(Join(parts, MARK), n)
  {
    if |parts| > 1 {
      var rest := Join(parts[1..], MARK);
      JoinIsClean(parts[1..], n);
      assert parts[0] in parts;
      if i: nat :| At(parts[0] + MARK + rest, i, n) {
        var t := parts[0] + MARK + rest;
        if i + |n| > |parts[0]| && i < |parts[0]| + |MARK| {
          Overlap(parts[0], rest, n, i);
        } else if i + |n| <= |parts[0]| {
          assert parts[0][i..i + |n|] == t[i..i + |n|];
          assert At(parts[0], i, n);
        } else {
          var from := |parts[0]| + |MARK|;
          assert rest[i - from..i - from + |n|] == t[i..i + |n|];
          assert At(rest, i - from, n);
        }
      }
    } else if |parts| == 1 {
      assert parts[0] in parts;
    } else {
      assert forall i: nat :: !At("", i, n);
    }
  }

  ghost predicate Clean(s: string, key: string) {
    !Contains(s, key) && !Contains(s, Encode(key))
  }

  /** The two passes leave neither the key nor its encoded form anywhere in the text. */
  lemma RedactionIsComplete(value: string, key: string)
    requires ApartFromMark(key) && ApartFromMark(Encode(key))
    ensures Clean(Redact(value, key), key)
  {
    EncodeNonEmpty(key);
    var encoded := Encode(key);
    var first := Join(SplitOn(value, key), MARK);
    PartsAreClean(value, key);
    JoinIsClean(SplitOn(value, key), key);
    PartsAreClean(first, encoded);
    JoinIsClean(SplitOn(first, encoded), encoded);
    JoinIsClean(SplitOn(first, encoded), key);
  }

  lemma {:induction false} NothingToSplit(s: string, key: string)
    requires key != "" && !Contains(s, key)
    ensures SplitOn(s, key) == [s]
    decreases |s|
  {
    if |s| >= |key| {
      assert s[0..0 + |key|] == s[..|key|];
      assert !At(s, 0, key);
      if Contains(s[1..], key) {
        SuffixContains(s, 1, key);
      }
      NothingToSplit(s[1..], key);
      assert [s[0]] + s[1..] == s;
    }
  }

  /** A clean text passes through unchanged; so redacting twice is redacting once. */
  lemma RedactionIsIdempotent(value: string, key: string)
    ensures key != "" && Clean(value, key) ==> Redact(value, key) == value
    ensures ApartFromMark(key) && ApartFromMark(Encode(key)) ==> Redact(Redact(value, key), key) == Redact(value, key)
  {
    if key != "" && Clean(value, key) {
      CleanIsFixed(value, key);
    }
    if ApartFromMark(key) && ApartFromMark(Encode(key)) {
      RedactionIsComplete(value, key);
      CleanIsFixed(Redact(value, key), key);
    }
  }

  lemma CleanIsFixed(value: string, key: string)
    requires key != "" && Clean(value, key)
    ensures Redact(value, key) == value
  {
    EncodeNonEmpty(key);
    NothingToSplit(value, key);
    NothingToSplit(value, Encode(key));
  }

  // ---------------------------------------------------------------- for which keys

  lemma {:induction false} PercentHasNoStar(bytes: seq<byte>)
    ensures '*' !in PercentAll(bytes)
  {
    if bytes == [] {
    } else {
      PercentHasNoStar(bytes[1..]);
    }
  }

  lemma EncodeCharShape(c: char)
    ensures EncodeChar(c) != ""
    ensures !Unreserved(c) ==> EncodeChar(c)[0] == '%'
    ensures c != '*' ==> '*' !in EncodeChar(c)
  {
    PercentHasNoStar(Utf8(c));
  }

  lemma {:induction false} EncodeKeepsStarsOut(s: string)
    requires '*' !in s
    ensures '*' !in Encode(s)
  {
    if s == "" {
    } else {
      EncodeCharShape(s[0]);
      EncodeKeepsStarsOut(s[1..]);
    }
  }

  lemma {:induction false} UnescapedIsSame(s: string)
    requires '%' !in Encode(s)
    ensures Encode(s) == s
  {
    if s == "" {
    } else {
      EncodeCharShape(s[0]);
      assert EncodeChar(s[0])[0] in Encode(s);
      assert forall c | c in Encode(s[1..]) :: c in Encode(s);
      UnescapedIsSame(s[1..]);
    }
  }

  /** A star-free needle outside the word is apart from the mark. */
  lemma StarFreeIsApart(n: string)
    requires n != "" && '*' !in n && !Contains(WORD, n)
    ensures ApartFromMark(n)
  {
    if i: nat :| At(n, i, MARK) {
      MarkBringsStar(n, i);
    }
    forall i | 0 < i < |n| ensures !(n[i..] <= MARK) {
      assert n[i] in n && MARK[0] == '*';
    }
    forall i | 0 < i < |n| ensures !EndsWith(MARK, n[..i]) {
      assert n[i - 1] in n && MARK[|MARK| - 1] == '*';
    }
    if i: nat :| At(MARK, i, n) {
      MarkHoldsWord(n, i);
    }
  }

  lemma MarkBringsStar(n: string, i: nat)
    requires At(n, i, MARK)
    ensures '*' in n
  {
    assert n[i] == n[i..i + |MARK|][0] == MARK[0];
  }

  lemma MarkHoldsWord(n: string, i: nat)
    requires n != "" && '*' !in n && At(MARK, i, n)
    ensures Contains(WORD, n)
  {
    InsideTheStars(n, i);
    assert MARK[3..11] == WORD;
    assert WORD[i - 3..i - 3 + |n|] == MARK[i..i + |n|];
    assert At(WORD, i - 3, n);
  }

  lemma InsideTheStars(n: string, i: nat)
    requires n != "" && '*' !in n && At(MARK, i, n)
    ensures 3 <= i && i + |n| <= 11
  {
    var last := i + |n| - 1;
    assert MARK[i] == MARK[i..i + |n|][0] == n[0];
    assert MARK[last] == MARK[i..i + |n|][|n| - 1] == n[|n| - 1];
    assert MARK[i] != '*' && MARK[last] != '*';
  }

  lemma PartBringsNothingNew(s: string, i: nat, n: string, c: char)
    requires At(s, i, n) && c !in s
    ensures c !in n
  {
    forall j | 0 <= j < |n| ensures n[j] != c {
      assert s[i + j] == s[i..i + |n|][j] == n[j];
    }
  }

  /** Encoding cannot move a key into the word: an escape would bring a percent sign. */
  lemma EncodedOutsideTheWord(key: string)
    requires !Contains(WORD, key)
    ensures !Contains(WORD, Encode(key))
  {
    if i: nat :| At(WORD, i, Encode(key)) {
      assert '%' !in WORD;
      PartBringsNothingNew(WORD, i, Encode(key), '%');
      UnescapedIsSame(key);
    }
  }

  /** The encoded form of such a key is apart from the mark too. */
  lemma StarFreeKeysAreApart(key: string)
    requires key != "" && '*' !in key && !Contains(WORD, key)
    ensures ApartFromMark(key) && ApartFromMark(Encode(key))
  {
    StarFreeIsApart(key);
    EncodeNonEmpty(key);
    EncodeKeepsStarsOut(key);
    EncodedOutsideTheWord(key);
    StarFreeIsApart(Encode(key));
  }

  lemma PartsOfTheKey(key: string)
    requires key != ""
    ensures SplitOn(key, key) == ["", ""]
    ensures Join(SplitOn(key, key), MARK) == MARK
  {
    assert key[..|key|] == key && key[|key|..] == "";
    assert SplitOn(key, key) == [""] + [""];
    assert [""] + [""] == ["", ""] && ["", ""][1..] == [""];
  }

  /** For keys without a star, redaction is complete on every text exactly when the key is no part of the word. */
  lemma CompleteIffOutsideTheWord(key: string)
    requires key != "" && '*' !in key
    ensures (forall value :: Clean(Redact(value, key), key)) <==> !Contains(WORD, key)
  {
    CompleteIfApartNotInMark(key);
    if !Contains(WORD, key) {
      StarFreeKeysAreApart(key);
    } else {
      WordIsInMark(key);
    }
  }

  lemma AtInside(a: string, b: string, c: string, i: nat, n: string)
    requires At(b, i, n)
    ensures At(a + b + c, |a| + i, n)
  {
    assert (a + b + c)[|a| + i..|a| + i + |n|] == b[i..i + |n|];
  }

  /** A pass over the mark leaves a mark standing. */
  lemma MarkSurvives(encoded: string, i: nat, n: string)
    requires encoded != "" && At(MARK, i, n)
    ensures Contains(Join(SplitOn(MARK, encoded), MARK), n)
  {
    var parts := SplitOn(MARK, encoded);
    if |parts| == 1 {
      FirstPart(MARK, encoded);
      assert Join(parts, MARK) == MARK;
    } else {
      var rest := Join(parts[1..], MARK);
      AtInside(parts[0], MARK, rest, i, n);
      assert Join(parts, MARK) == parts[0] + MARK + rest;
    }
  }

  /** Any key inside the mark, with stars or without, is put back by the mark that replaces it. */
  lemma MarkKeysSurvive(key: string)
    requires key != "" && Contains(MARK, key)
    ensures Contains(Redact(key, key), key)
  {
    var i: nat :| At(MARK, i, key);
    EncodeNonEmpty(key);
    PartsOfTheKey(key);
    MarkSurvives(Encode(key), i, key);
  }

  lemma WordIsInMark(key: string)
    requires Contains(WORD, key)
    ensures Contains(MARK, key)
  {
    var i: nat :| At(WORD, i, key);
    AtInside("***", WORD, "***", i, key);
    assert "***" + WORD + "***" == MARK;
  }

  /**
   For every key, with stars or without: redaction is complete if the key and its encoded form are
   apart from the mark, and it is not if the mark holds the key.
   */
  lemma CompleteIfApartNotInMark(key: string)
    requires key != ""
    ensures ApartFromMark(key) && ApartFromMark(Encode(key)) ==> forall value :: Clean(Redact(value, key), key)
    ensures Contains(MARK, key) ==> !Clean(Redact(key, key), key)
  {
    if ApartFromMark(key) && ApartFromMark(Encode(key)) {
      forall value ensures Clean(Redact(value, key), key) {
        RedactionIsComplete(value, key);
      }
    }
    if Contains(MARK, key) {
      MarkKeysSurvive(key);
    }
  }

  lemma SplitStep(s: string, key: string)
    requires |s| >= |key| > 0 && s[..|key|] != key
    ensures var rest := SplitOn(s[1..], key);
      SplitOn(s, key) == [[s[0]] + rest[0]] + rest[1..]
  {
  }

  /** The parts of a text that has the key after a prefix in which the key's second character does not occur. */
  lemma {:induction false} PrefixedKey(head: string, key: string)
    requires |key| == 2 && key[1] !in head && key[0] != key[1]
    ensures SplitOn(head + key, key) == [head, ""]
  {
    var s := head + key;
    if head == "" {
      assert s == key;
      PartsOfTheKey(key);
    } else {
      assert s[1] == if |head| == 1 then key[0] else head[1];
      assert s[..2][1] != key[1];
      SplitStep(s, key);
      assert s[1..] == head[1..] + key;
      PrefixedKey(head[1..], key);
      var rest := [head[1..], ""];
      assert [s[0]] + rest[0] == head && rest[1..] == [""];
    }
  }

  lemma StarKeyIsItsOwnCode()
    ensures Encode("a*") == "a*"
  {
    var key := "a*";
    assert Encode(key[1..]) == EncodeChar('*') + Encode(key[1..][1..]) == "*";
    assert Encode(key) == EncodeChar('a') + Encode(key[1..]);
  }

  /** The second pass meets the key that the first mark has made, and makes another one the same way. */
  lemma StarComesBackAgain(first: string, key: string)
    requires |key| == 2 && key[0] != key[1] && key[1] == MARK[0]
    requires first == [key[0]] + [key[0]] + MARK
    ensures Contains(Join(SplitOn(first, key), MARK), key)
  {
    assert first[..2] == [key[0], key[0]] && first[1..][..2] == [key[0], key[1]] == key;
    SplitStep(first, key);
    var parts := SplitOn(first, key);
    assert parts[0] == [key[0]] + "" && |parts| > 1;
    var out := Join(parts, MARK);
    assert out == parts[0] + MARK + Join(parts[1..], MARK);
    assert out[0..0 + 2] == [out[0], out[1]] == key;
    assert At(out, 0, key);
  }

  /** A key with a star can come back across a join: the star of the mark completes it. */
  lemma StarKeyComesBack()
    ensures Contains(Redact("aaa*", "a*"), "a*")
  {
    var key := "a*";
    StarKeyIsItsOwnCode();
    PrefixedKey("aa", key);
    assert "aa" + key == "aaa*";
    assert ["aa", ""][1..] == [""];
    var first := Join(["aa", ""], MARK);
    assert first == "aa" + MARK + "" == ['a'] + ['a'] + MARK;
    StarComesBackAgain(first, key);
  }
}
