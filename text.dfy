/** Character and line handling shared by the input loader and the output files:
    Python's `str.strip()` and the way a text-mode file is iterated line by line. */
module Text {

  /** Python's `str.isspace()` for one character: the characters `str.strip()`
      with no argument removes (Unicode White_Space plus the separators
      U+001C..U+001F that Python also treats as whitespace). */
  predicate IsSpace(c: char) {
    var n := c as int;
    (0x09 <= n <= 0x0D) || (0x1C <= n <= 0x20) || n == 0x85 || n == 0xA0 || n == 0x1680
    || (0x2000 <= n <= 0x200A) || n == 0x2028 || n == 0x2029 || n == 0x202F
    || n == 0x205F || n == 0x3000
  }

  /** On ASCII, the whitespace set is the six C-locale spaces together with
      the four information separators U+001C..U+001F. */
  lemma SpaceAscii(c: char)
    requires c as int < 0x80
    ensures IsSpace(c) <==> c as int in {0x09, 0x0A, 0x0B, 0x0C, 0x0D, 0x1C, 0x1D, 0x1E, 0x1F, 0x20}
  {
  }

  predicate AllSpace(s: string) {
    forall i | 0 <= i < |s| :: IsSpace(s[i])
  }

  /** No whitespace at either end (the empty string qualifies). */
  predicate IsStripped(s: string) {
    s == [] || (!IsSpace(s[0]) && !IsSpace(s[|s| - 1]))
  }

  /** How much leading whitespace `s.strip()` removes. */
  function Lead(s: string): (k: nat)
    ensures k <= |s|
  {
    if s != [] && IsSpace(s[0]) then 1 + Lead(s[1..]) else 0
  }

  /** How much trailing whitespace `s.strip()` removes. */
  function Trail(s: string): (k: nat)
    ensures k <= |s|
  {
    if s != [] && IsSpace(s[|s| - 1]) then 1 + Trail(s[..|s| - 1]) else 0
  }

  /** `Lead` counts whitespace only, and all of it. */
  lemma {:induction false} LeadIsSpace(s: string)
    ensures AllSpace(s[..Lead(s)])
    ensures Lead(s) < |s| ==> !IsSpace(s[Lead(s)])
  {
    if s != [] && IsSpace(s[0]) {
      LeadIsSpace(s[1..]);
      assert s[..Lead(s)] == [s[0]] + s[1..][..Lead(s[1..])];
    }
  }

  /** `Trail` counts whitespace only, and all of it. */
  lemma {:induction false} TrailIsSpace(s: string)
    ensures AllSpace(s[|s| - Trail(s)..])
    ensures Trail(s) < |s| ==> !IsSpace(s[|s| - Trail(s) - 1])
  {
    if s != [] && IsSpace(s[|s| - 1]) {
      var init := s[..|s| - 1];
      TrailIsSpace(init);
      assert s[|s| - Trail(s)..] == init[|init| - Trail(init)..] + [s[|s| - 1]];
    }
  }

  /** `s.strip()`: `s` with its leading and trailing whitespace removed. */
  function Strip(s: string): (r: string)
    ensures |r| <= |s|
  {
    var t := s[Lead(s)..];
    t[..|t| - Trail(t)]
  }

  /** `Strip` leaves no whitespace at either end. */
  lemma StripIsStripped(s: string)
    ensures IsStripped(Strip(s))
  {
    var t := s[Lead(s)..];
    var r := Strip(s);
    LeadIsSpace(s);
    TrailIsSpace(t);
    if r != [] {
      assert r[0] == t[0] == s[Lead(s)];
      assert r[|r| - 1] == t[|t| - Trail(t) - 1];
    }
  }

  /** `Strip(s)` is the slice of `s` after its leading whitespace. */
  lemma StripSlice(s: string)
    ensures Lead(s) + |Strip(s)| <= |s| && Strip(s) == s[Lead(s)..Lead(s) + |Strip(s)|]
  {
  }

  /** What `Strip` removes is whitespace and nothing else: the result is the
      middle of `s` between a whitespace prefix and a whitespace suffix, and
      it is empty exactly when `s` is all whitespace. */
  lemma StripParts(s: string)
    ensures Lead(s) + |Strip(s)| <= |s| && Strip(s) == s[Lead(s)..Lead(s) + |Strip(s)|]
    ensures AllSpace(s[..Lead(s)]) && AllSpace(s[Lead(s) + |Strip(s)|..])
    ensures Strip(s) == [] <==> AllSpace(s)
  {
    StripSlice(s);
    LeadIsSpace(s);
    StripSuffix(s);
    StripEmpty(s);
  }

  /** `Strip` adds no character. */
  lemma StripLacks(s: string, c: char)
    requires c !in s
    ensures c !in Strip(s)
  {
    StripSlice(s);
    SliceLacks(s, Lead(s), Lead(s) + |Strip(s)|, c);
  }

  /** What follows the result of `Strip` in `s` is whitespace. */
  lemma StripSuffix(s: string)
    ensures Lead(s) + |Strip(s)| <= |s| && AllSpace(s[Lead(s) + |Strip(s)|..])
  {
    var k := Lead(s);
    var t := s[k..];
    TrailIsSpace(t);
    assert s[k + |Strip(s)|..] == t[|t| - Trail(t)..];
  }

  /** `Strip` leaves nothing exactly when there is only whitespace. */
  lemma StripEmpty(s: string)
    ensures Strip(s) == [] <==> AllSpace(s)
  {
    var k := Lead(s);
    var t := s[k..];
    LeadIsSpace(s);
    TrailIsSpace(t);
    if Strip(s) == [] {
      assert t[|t| - Trail(t)..] == t;
      assert s == s[..k];
    } else {
      StripIsStripped(s);
      assert Strip(s)[0] == s[k];
    }
  }

  /** A line as iterating over a text-mode file yields it: non-empty, and a
      newline, if any, only as its last character. */
  predicate IsLine(l: string) {
    l != [] && forall i | 0 <= i < |l| - 1 :: l[i] != '\n'
  }

  predicate Terminated(l: string) {
    l != [] && l[|l| - 1] == '\n'
  }

  /** The text of a file made of the given pieces, in order. */
  function Join(pieces: seq<string>): string {
    if pieces == [] then [] else pieces[0] + Join(pieces[1..])
  }

  /** Length of the first line of `text`, its newline included. */
  function LineLength(text: string): (k: nat)
    requires text != []
    ensures 0 < k <= |text|
    ensures forall i | 0 <= i < k - 1 :: text[i] != '\n'
    ensures text[k - 1] == '\n' || k == |text|
  {
    if text[0] == '\n' || |text| == 1 then 1 else 1 + LineLength(text[1..])
  }

  /** The lines `for line in file` yields for a file holding `text`: the text
      cut after every newline, with no empty line at the end. */
  function Lines(text: string): (lines: seq<string>)
    ensures Join(lines) == text
    decreases |text|
  {
    if text == [] then []
    else
      var k := LineLength(text);
      var rest := Lines(text[k..]);
      assert text == text[..k] + text[k..];
      [text[..k]] + rest
  }

  /** The newline translation of a text-mode read: "\r\n" and a lone "\r"
      each become "\n", so no carriage return survives. */
  function Universal(text: string): (r: string)
    ensures |r| <= |text|
  {
    if text == [] then []
    else if text[0] == '\r' then
      var rest := if |text| > 1 && text[1] == '\n' then text[2..] else text[1..];
      "\n" + Universal(rest)
    else [text[0]] + Universal(text[1..])
  }

  /** No carriage return survives the translation. */
  lemma {:induction false} UniversalNoReturn(text: string)
    ensures '\r' !in Universal(text)
    decreases |text|
  {
    if text != [] {
      var rest := if text[0] == '\r' && |text| > 1 && text[1] == '\n' then text[2..] else text[1..];
      UniversalNoReturn(rest);
      var head := if text[0] == '\r' then "\n" else [text[0]];
      assert Universal(text) == head + Universal(rest);
    }
  }

  /** A text with no carriage return is read as written. */
  lemma {:induction false} UniversalPlain(text: string)
    requires '\r' !in text
    ensures Universal(text) == text
  {
    if text != [] {
      assert text[0] in text;
      assert forall c | c in text[1..] :: c in text;
      UniversalPlain(text[1..]);
    }
  }

  /** The translation works token by token: a carriage return alone becomes a
      newline, so does a carriage return followed by a newline, and every
      other character is kept. */
  lemma UniversalTokens(c: char)
    ensures Universal("\r") == "\n" && Universal("\r\n") == "\n"
    ensures c != '\r' ==> Universal([c]) == [c]
  {
    assert "\r\n"[2..] == [];
  }

  /** Cutting the text anywhere except between the two characters of a
      "\r\n" pair and translating the parts gives the translation of the
      whole. */
  lemma {:induction false} UniversalAppend(a: string, b: string)
    requires a == [] || b == [] || a[|a| - 1] != '\r' || b[0] != '\n'
    ensures Universal(a + b) == Universal(a) + Universal(b)
    decreases |a|
  {
    if a == [] {
      assert a + b == b;
    } else {
      var head, rest := UniversalStep(a, b);
      UniversalAppend(rest, b);
      assert head + (Universal(rest) + Universal(b)) == (head + Universal(rest)) + Universal(b);
    }
  }

  /** The first token of `a` is translated the same with or without `b`
      after it. */
  lemma UniversalStep(a: string, b: string) returns (head: string, rest: string)
    requires a != []
    requires b == [] || a[|a| - 1] != '\r' || b[0] != '\n'
    ensures |rest| < |a| && (rest == [] || rest[|rest| - 1] == a[|a| - 1])
    ensures Universal(a) == head + Universal(rest)
    ensures Universal(a + b) == head + Universal(rest + b)
  {
    var ab := a + b;
    if a[0] == '\r' && |a| > 1 && a[1] == '\n' {
      head, rest := "\n", a[2..];
      assert ab[0] == '\r' && ab[1] == '\n' && ab[2..] == rest + b;
    } else if a[0] == '\r' {
      head, rest := "\n", a[1..];
      assert ab[0] == '\r' && ab[1..] == rest + b;
      assert rest == [] || ab[1] == a[1];
    } else {
      head, rest := [a[0]], a[1..];
      assert ab[0] == a[0] && ab[1..] == rest + b;
    }
  }

  /** A text ending with a newline is still newline-terminated once read. */
  lemma {:induction false} UniversalTerminated(a: string)
    requires Terminated(a)
    ensures Terminated(Universal(a))
    decreases |a|
  {
    if a[0] == '\r' && |a| > 1 && a[1] == '\n' {
      if |a| > 2 {
        assert a[2..][|a[2..]| - 1] == a[|a| - 1];
        UniversalTerminated(a[2..]);
      }
    } else if |a| > 1 {
      assert a[1..][|a[1..]| - 1] == a[|a| - 1];
      UniversalTerminated(a[1..]);
    }
  }

  /** A character absent from a text is absent from each of its lines. */
  lemma LineLacks(text: string, i: nat, c: char)
    requires i < |Lines(text)|
    requires c !in text
    ensures c !in Lines(text)[i]
  {
    JoinLacks(Lines(text), i, c);
  }

  /** A character absent from a concatenation is absent from each piece. */
  lemma {:induction false} JoinLacks(pieces: seq<string>, i: nat, c: char)
    requires i < |pieces| && c !in Join(pieces)
    ensures c !in pieces[i]
  {
    assert Join(pieces) == pieces[0] + Join(pieces[1..]);
    if i > 0 {
      assert pieces[1..][i - 1] == pieces[i];
      JoinLacks(pieces[1..], i - 1, c);
    }
  }

  lemma SliceLacks(s: string, lo: nat, hi: nat, c: char)
    requires lo <= hi <= |s| && c !in s
    ensures c !in s[lo..hi]
  {
    var t := s[lo..hi];
    forall j | 0 <= j < |t| ensures t[j] != c {
      assert t[j] == s[lo + j] && s[lo + j] in s;
    }
  }

  /** Each piece `Lines` cuts is a line. */
  lemma {:induction false} LineIsLine(text: string, i: nat)
    requires i < |Lines(text)|
    ensures IsLine(Lines(text)[i])
    decreases |text|
  {
    var k := LineLength(text);
    assert Lines(text) == [text[..k]] + Lines(text[k..]);
    if i > 0 {
      LineIsLine(text[k..], i - 1);
    }
  }

  /** Every line but the last ends with a newline. */
  lemma {:induction false} LineIsTerminated(text: string, i: nat)
    requires i < |Lines(text)| - 1
    ensures Terminated(Lines(text)[i])
    decreases |text|
  {
    var k := LineLength(text);
    var rest := Lines(text[k..]);
    assert Lines(text) == [text[..k]] + rest;
    if i == 0 {
      assert Join(rest) == text[k..] != [];
    } else {
      LineIsTerminated(text[k..], i - 1);
    }
  }

  /** So does the last one, when the text ends with a newline. */
  lemma {:induction false} LastLineIsTerminated(text: string)
    requires Terminated(text)
    ensures Lines(text) != [] && Terminated(Lines(text)[|Lines(text)| - 1])
    decreases |text|
  {
    var k := LineLength(text);
    var rest := Lines(text[k..]);
    assert Lines(text) == [text[..k]] + rest;
    assert Join(rest) == text[k..];
    if rest != [] {
      assert text[k..][|text[k..]| - 1] == text[|text| - 1];
      LastLineIsTerminated(text[k..]);
    }
  }

  /** The shape of every line `Lines` cuts. */
  lemma LinesShape(text: string)
    ensures forall i | 0 <= i < |Lines(text)| :: IsLine(Lines(text)[i])
    ensures forall i | 0 <= i < |Lines(text)| - 1 :: Terminated(Lines(text)[i])
    ensures Terminated(text) ==> Lines(text) != [] && Terminated(Lines(text)[|Lines(text)| - 1])
  {
    forall i | 0 <= i < |Lines(text)| ensures IsLine(Lines(text)[i]) {
      LineIsLine(text, i);
    }
    forall i | 0 <= i < |Lines(text)| - 1 ensures Terminated(Lines(text)[i]) {
      LineIsTerminated(text, i);
    }
    if Terminated(text) {
      LastLineIsTerminated(text);
    }
  }

  lemma {:induction false} JoinAppend(a: seq<string>, b: seq<string>)
    ensures Join(a + b) == Join(a) + Join(b)
  {
    if a == [] {
      assert a + b == b;
    } else {
      assert (a + b)[0] == a[0] && (a + b)[1..] == a[1..] + b;
      JoinAppend(a[1..], b);
    }
  }

  /** The first line of `l + rest` is `l` when `l` is a whole line. */
  lemma {:induction false} FirstLineLength(l: string, rest: string)
    requires IsLine(l)
    requires Terminated(l) || rest == []
    ensures LineLength(l + rest) == |l|
  {
    if |l| > 1 {
      assert (l + rest)[1..] == l[1..] + rest;
      FirstLineLength(l[1..], rest);
    }
  }

  /** Splitting the concatenation of whole lines gives those lines back: the
      decomposition `Lines` computes is the only one into lines. */
  lemma {:induction false} LinesOfJoin(lines: seq<string>)
    requires forall i | 0 <= i < |lines| :: IsLine(lines[i])
    requires forall i | 0 <= i < |lines| - 1 :: Terminated(lines[i])
    ensures Lines(Join(lines)) == lines
  {
    if lines != [] {
      var text := Join(lines);
      FirstLineLength(lines[0], Join(lines[1..]));
      LinesOfJoin(lines[1..]);
      assert text[..|lines[0]|] == lines[0];
      assert text[|lines[0]|..] == Join(lines[1..]);
    }
  }

  /** Reading stops at a line boundary: the lines of `a + b` are those of `a`
      followed by those of `b` when `a` ends with a newline. */
  lemma LinesAppend(a: string, b: string)
    requires a == [] || Terminated(a)
    ensures Lines(a + b) == Lines(a) + Lines(b)
  {
    var la, lb := Lines(a), Lines(b);
    LinesShape(a);
    LinesShape(b);
    JoinAppend(la, lb);
    LinesOfJoin(la + lb);
  }
}
