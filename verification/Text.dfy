/** The string operations of the source language that the scanners rely on. */
module Text {

  /** White space and line terminators: what trim removes and the class \s matches. */
  predicate IsSpace(c: char) {
    || c in "\t\n\r \U{000B}\U{000C}\U{00A0}\U{1680}\U{2028}\U{2029}\U{202F}\U{205F}\U{3000}\U{FEFF}"
    || '\U{2000}' <= c <= '\U{200A}'
  }

  function TrimStart(s: string): string {
    if s != [] && IsSpace(s[0]) then TrimStart(s[1..]) else s
  }

  function TrimEnd(s: string): string {
    if s != [] && IsSpace(s[|s| - 1]) then TrimEnd(s[..|s| - 1]) else s
  }

  function Trim(s: string): string {
    TrimEnd(TrimStart(s))
  }

  /** Decimal notation. */
  function Decimal(n: nat): string {
    if n < 10 then [Digit(n)] else Decimal(n / 10) + [Digit(n % 10)]
  }

  function Digit(n: nat): char
    requires n < 10
  {
    ['0', '1', '2', '3', '4', '5', '6', '7', '8', '9'][n]
  }

  /** Index of the first occurrence of c, or the length when there is none. */
  function Find(s: string, c: char): (k: nat)
    ensures k <= |s|
    ensures c !in s[..k]
    ensures k < |s| ==> s[k] == c
  {
    if s == [] || s[0] == c then 0 else 1 + Find(s[1..], c)
  }

  /** Cuts at every separator. */
  function Split(s: string, sep: char): (parts: seq<string>)
    ensures parts != []
  {
    var k := Find(s, sep);
    if k == |s| then [s] else [s[..k]] + Split(s[k + 1..], sep)
  }

  function Join(parts: seq<string>, sep: string): string {
    if parts == [] then ""
    else if |parts| == 1 then parts[0]
    else parts[0] + sep + Join(parts[1..], sep)
  }

  /** The parts are what lies between the separators: nothing is lost, and no part holds one. */
  ghost predicate CutsInto(s: string, sep: char, parts: seq<string>) {
    Join(parts, [sep]) == s && forall k | 0 <= k < |parts| :: sep !in parts[k]
  }

  lemma {:induction false} SplitExact(s: string, sep: char)
    ensures CutsInto(s, sep, Split(s, sep))
  {
    var k := Find(s, sep);
    if k < |s| {
      SplitExact(s[k + 1..], sep);
      assert s == s[..k] + [sep] + s[k + 1..];
      assert Split(s, sep)[1..] == Split(s[k + 1..], sep);
    }
  }

  lemma FindIn(s: string, c: char)
    ensures c in s <==> Find(s, c) < |s|
  {
    assert s[..|s|] == s;
  }

  lemma {:induction false} FindFirst(head: string, c: char, tail: string)
    requires c !in head
    ensures Find(head + [c] + tail, c) == |head|
  {
    if head == "" {
      assert head + [c] + tail == [c] + tail;
    } else {
      assert (head + [c] + tail)[1..] == head[1..] + [c] + tail;
      FindFirst(head[1..], c, tail);
    }
  }

  /** The cut is the only one: splitting undoes joining. */
  lemma {:induction false} SplitJoin(parts: seq<string>, sep: char)
    requires parts != [] && forall k | 0 <= k < |parts| :: sep !in parts[k]
    ensures Split(Join(parts, [sep]), sep) == parts
  {
    var s := Join(parts, [sep]);
    if |parts| == 1 {
      assert Find(s, sep) == |s|;
    } else {
      var rest := Join(parts[1..], [sep]);
      FindFirst(parts[0], sep, rest);
      assert s[..|parts[0]|] == parts[0] && s[|parts[0]| + 1..] == rest;
      SplitJoin(parts[1..], sep);
    }
  }

  lemma {:induction false} TrimEndShape(s: string)
    ensures TrimEnd(s) <= s
    ensures s != "" && !IsSpace(s[0]) ==> TrimEnd(s) != ""
  {
    if s == "" {
    } else if IsSpace(s[|s| - 1]) {
      TrimEndShape(s[..|s| - 1]);
    }
  }

  /** A text is not blank if after some white space something else comes. */
  lemma NotBlank(lead: string, s: string)
    requires AllSpace(lead) && s != "" && !IsSpace(s[0])
    ensures Trim(lead + s) != ""
  {
    TrimLead(lead, s);
    TrimEndShape(s);
  }

  lemma TrimKeeps(s: string)
    requires s != "" && !IsSpace(s[0]) && !IsSpace(s[|s| - 1])
    ensures Trim(s) == s
  {
  }

  predicate AllSpace(s: string) { forall c | c in s :: IsSpace(c) }

  /** Nothing to trim: empty, or without white space at either end. */
  predicate Tight(s: string) { s != "" ==> !IsSpace(s[0]) && !IsSpace(s[|s| - 1]) }

  /** A text with white space around it. */
  datatype Padded = Padded(lead: string, core: string, trail: string)

  function PaddedText(p: Padded): string { p.lead + p.core + p.trail }

  predicate WellPadded(p: Padded) {
    AllSpace(p.lead) && AllSpace(p.trail) && Tight(p.core)
  }

  /** Every text is some core with white space around it. */
  lemma {:induction false} Unpadded(s: string) returns (p: Padded)
    ensures WellPadded(p) && PaddedText(p) == s
  {
    if Tight(s) {
      p := Padded("", s, "");
    } else if IsSpace(s[0]) {
      var q := Unpadded(s[1..]);
      p := Padded([s[0]] + q.lead, q.core, q.trail);
      assert s == [s[0]] + s[1..];
    } else {
      var n := |s| - 1;
      var q := Unpadded(s[..n]);
      p := Padded(q.lead, q.core, q.trail + [s[n]]);
      assert s == s[..n] + [s[n]];
    }
  }

  /** Trimming takes away the white space around a text, and only that. */
  lemma TrimPads(lead: string, core: string, trail: string)
    requires AllSpace(lead) && AllSpace(trail) && Tight(core)
    ensures Trim(lead + core + trail) == core
  {
    TrimLead(lead, core + trail);
    assert lead + (core + trail) == lead + core + trail;
    if core == "" {
      TrimLead(trail, "");
      assert trail + "" == trail && core + trail == trail;
    } else {
      assert TrimStart(core + trail) == core + trail;
      TrimTrail(core, trail);
    }
  }

  lemma {:induction false} TrimLead(lead: string, rest: string)
    requires AllSpace(lead)
    ensures TrimStart(lead + rest) == TrimStart(rest)
  {
    if lead == "" {
      assert lead + rest == rest;
    } else {
      assert IsSpace(lead[0]);
      assert (lead + rest)[1..] == lead[1..] + rest;
      TrimLead(lead[1..], rest);
    }
  }

  lemma {:induction false} TrimTrail(core: string, trail: string)
    requires AllSpace(trail) && core != "" && !IsSpace(core[|core| - 1])
    ensures TrimEnd(core + trail) == core
  {
    if trail == "" {
      assert core + trail == core;
    } else {
      var n := |trail| - 1;
      assert IsSpace(trail[n]);
      assert (core + trail)[..|core + trail| - 1] == core + trail[..n];
      TrimTrail(core, trail[..n]);
    }
  }

  /** The first word ends where the white space starts. */
  lemma {:induction false} FirstWordEnds(word: string, rest: string)
    requires (forall c | c in word :: !IsSpace(c)) && (rest == "" || IsSpace(rest[0]))
    ensures FirstWord(word + rest) == word
  {
    if word == "" {
      assert word + rest == rest;
    } else {
      assert word[0] in word;
      assert (word + rest)[1..] == word[1..] + rest;
      FirstWordEnds(word[1..], rest);
    }
  }

  /** A trimmed text does not start with white space. */
  lemma TrimmedStart(s: string)
    requires s != "" && Trim(s) == s
    ensures !IsSpace(s[0])
  {
    TrimStartShorter(s);
    TrimEndShape(TrimStart(s));
  }

  lemma {:induction false} TrimStartShorter(s: string)
    ensures |TrimStart(s)| <= |s|
    ensures s != "" && IsSpace(s[0]) ==> |TrimStart(s)| < |s|
  {
    if s == "" {
    } else if IsSpace(s[0]) {
      TrimStartShorter(s[1..]);
    }
  }

  /** Up to the first white space. */
  function FirstWord(s: string): string {
    if s == [] || IsSpace(s[0]) then "" else [s[0]] + FirstWord(s[1..])
  }
}
