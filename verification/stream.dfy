/**
 * The parts of the C++ stream library that the /proc reader in lpm/src/process.cpp relies
 * on: formatted extraction (`in >> target` into a std::string or an integer) from a
 * std::istringstream, and the line splitting of std::getline.
 *
 * Extraction rules, as the library states them:
 *  - leading whitespace is skipped;
 *  - once failbit is set, every later extraction does nothing;
 *  - reaching the end before any non-blank character sets failbit and leaves the target alone;
 *  - a string target receives the run of non-blank characters;
 *  - an integer target receives an optional sign and the run of decimal digits after it;
 *    when there is no digit, the target is set to 0 and failbit is set.
 * Integers are unbounded: the saturation on overflow and the wrap of a negated unsigned
 * value are not modelled.
 */
module Streams {
  import opened Wrappers
  import opened Text

  /** An input string stream: the text not yet consumed, and whether failbit is set. */
  datatype Stream = Stream(rest: string, failed: bool)

  /** The stream after one extraction, and the value then held by the target variable. */
  datatype Extracted<T> = Extracted(stream: Stream, value: T)

  /** What is left after the whitespace that every formatted extraction skips. */
  function SkipSpace(s: string): (r: string)
    ensures |r| <= |s|
    ensures r == [] || !IsSpace(r[0])
  {
    if s != [] && IsSpace(s[0]) then SkipSpace(s[1..]) else s
  }

  /** The length of the leading run of non-blank characters. */
  function TokenLength(s: string): (n: nat)
    ensures n <= |s|
    ensures forall i :: 0 <= i < n ==> !IsSpace(s[i])
    ensures n < |s| ==> IsSpace(s[n])
  {
    if s == [] || IsSpace(s[0]) then 0 else 1 + TokenLength(s[1..])
  }

  /** The length of the leading run of decimal digits. */
  function DigitCount(s: string): (n: nat)
    ensures n <= |s|
    ensures forall i :: 0 <= i < n ==> IsDigit(s[i])
    ensures n < |s| ==> !IsDigit(s[n])
  {
    if s == [] || !IsDigit(s[0]) then 0 else 1 + DigitCount(s[1..])
  }

  /** `in >> target` for a std::string target. */
  function ReadWord(st: Stream, target: string): (e: Extracted<string>)
    ensures st.failed ==> e == Extracted(st, target)
    ensures e.stream.failed ==> e.value == target
    ensures !e.stream.failed ==> |e.value| > 0 && forall i :: 0 <= i < |e.value| ==> !IsSpace(e.value[i])
    ensures !e.stream.failed ==> e.stream.rest == [] || IsSpace(e.stream.rest[0])
  {
    if st.failed then Extracted(st, target)
    else
      var t := SkipSpace(st.rest);
      if t == [] then Extracted(Stream([], true), target)
      else
        var n := TokenLength(t);
        Extracted(Stream(t[n..], false), t[..n])
  }

  /** `in >> target` for an integer target. */
  function ReadNumber(st: Stream, target: int): (e: Extracted<int>)
    ensures st.failed ==> e == Extracted(st, target)
    ensures !st.failed && SkipSpace(st.rest) == [] ==> e.stream.failed && e.value == target
    ensures !st.failed && SkipSpace(st.rest) != [] && e.stream.failed ==> e.value == 0
    ensures !e.stream.failed ==> e.stream.rest == [] || !IsDigit(e.stream.rest[0])
  {
    if st.failed then Extracted(st, target)
    else
      var t := SkipSpace(st.rest);
      if t == [] then Extracted(Stream([], true), target) else ParseInteger(t)
  }

  /** Once a non-blank character is in sight the old value of the target plays no part. */
  lemma ReadNumberTargetFree(st: Stream, t1: int, t2: int)
    requires !st.failed && SkipSpace(st.rest) != []
    ensures ReadNumber(st, t1) == ReadNumber(st, t2)
  {
  }

  /** The integer conversion once a non-blank character is in sight: sign, then digits. */
  function ParseInteger(t: string): (e: Extracted<int>)
    requires t != []
    ensures e.stream.failed ==> e.value == 0
    ensures !e.stream.failed ==> e.stream.rest == [] || !IsDigit(e.stream.rest[0])
  {
    var u := if t[0] == '-' || t[0] == '+' then t[1..] else t;
    var n := DigitCount(u);
    if n == 0 then Extracted(Stream(u, true), 0)
    else
      var v: int := DecimalValue(u[..n]);
      Extracted(Stream(u[n..], false), if t[0] == '-' then -v else v)
  }

  /** Extracting into a variable whose value is never used: only the stream moves on. */
  function SkipNumbers(st: Stream, k: nat): Stream
    decreases k
  {
    if k == 0 then st else SkipNumbers(ReadNumber(st, 0).stream, k - 1)
  }

  lemma {:induction false} DigitCountOfDigits(d: string, rest: string)
    requires AllDigits(d) && (rest == [] || !IsDigit(rest[0]))
    ensures DigitCount(d + rest) == |d|
  {
    if d != [] {
      assert (d + rest)[1..] == d[1..] + rest;
      DigitCountOfDigits(d[1..], rest);
    }
  }

  lemma {:induction false} TokenLengthOfWord(w: string, rest: string)
    requires forall i :: 0 <= i < |w| ==> !IsSpace(w[i])
    requires rest == [] || IsSpace(rest[0])
    ensures TokenLength(w + rest) == |w|
  {
    if w != [] {
      assert (w + rest)[1..] == w[1..] + rest;
      TokenLengthOfWord(w[1..], rest);
    }
  }

  /** Converting a run of digits that ends at a non-digit. */
  lemma ParseDigits(d: string, rest: string)
    requires d != [] && AllDigits(d) && (rest == [] || !IsDigit(rest[0]))
    ensures ParseInteger(d + rest) == Extracted(Stream(rest, false), DecimalValue(d))
  {
    var u := d + rest;
    assert u[0] == d[0];
    DigitCountOfDigits(d, rest);
    assert u[..|d|] == d;
    assert u[|d|..] == rest;
  }

  /** Converting a minus sign and a run of digits that ends at a non-digit. */
  lemma ParseNegative(t: string, d: string, rest: string)
    requires d != [] && AllDigits(d) && (rest == [] || !IsDigit(rest[0]))
    requires t != [] && t[0] == '-' && t[1..] == d + rest
    ensures ParseInteger(t) == Extracted(Stream(rest, false), -(DecimalValue(d) as int))
  {
    DigitCountOfDigits(d, rest);
    assert (d + rest)[..|d|] == d;
    assert (d + rest)[|d|..] == rest;
  }

  /** After one blank, an integer extraction converts whatever non-blank text follows. */
  lemma ReadAfterBlank(x: string, target: int)
    requires x != [] && !IsSpace(x[0])
    ensures ReadNumber(Stream(" " + x, false), target) == ParseInteger(x)
  {
    assert (" " + x)[1..] == x;
    assert SkipSpace(" " + x) == SkipSpace(x) == x;
  }

  /** Blanks and tabs in front of the unread text are skipped before any integer is read. */
  lemma ReadAfterBlanks(sep: string, x: string, target: int)
    requires forall i :: 0 <= i < |sep| ==> sep[i] == ' ' || sep[i] == '\t'
    ensures ReadNumber(Stream(sep + x, false), target) == ReadNumber(Stream(x, false), target)
  {
    SkipBlanks(sep, x);
  }

  lemma {:induction false} SkipBlanks(sep: string, x: string)
    requires forall i :: 0 <= i < |sep| ==> sep[i] == ' ' || sep[i] == '\t'
    ensures SkipSpace(sep + x) == SkipSpace(x)
  {
    if sep != [] {
      var sx := sep + x;
      assert sx[0] == sep[0] && IsSpace(sx[0]);
      assert sx[1..] == sep[1..] + x;
      assert SkipSpace(sx) == SkipSpace(sx[1..]);
      SkipBlanks(sep[1..], x);
    } else {
      assert sep + x == x;
    }
  }

  /** A decimal numeral as the kernel writes one: digits, optionally after a minus sign. */
  predicate IsNumeral(w: string) {
    (w != [] && AllDigits(w)) || (|w| > 1 && w[0] == '-' && AllDigits(w[1..]))
  }

  function NumeralValue(w: string): int
    requires IsNumeral(w)
  {
    if w[0] == '-' then -(DecimalValue(w[1..]) as int) else DecimalValue(w)
  }

  /** std::to_string writes a numeral for the same number. */
  lemma RenderedIsNumeral(n: int)
    ensures IsNumeral(IntToString(n)) && NumeralValue(IntToString(n)) == n
  {
    IntToStringFacts(n);
    if n < 0 {
      NatToStringFacts(-n);
      assert IntToString(n)[1..] == NatToString(-n);
    } else {
      NatToStringFacts(n);
    }
  }

  /** A numeral holds nothing but a minus sign and digits. */
  lemma NumeralLacks(w: string, c: char)
    requires IsNumeral(w) && c != '-' && !IsDigit(c)
    ensures c !in w
  {
    if w[0] == '-' {
      assert forall i :: 0 < i < |w| ==> w[i] == w[1..][i - 1];
    }
  }

  /** Converting a numeral that ends at a non-digit gives its value. */
  lemma ParseNumeral(w: string, rest: string)
    requires IsNumeral(w) && (rest == [] || !IsDigit(rest[0]))
    ensures ParseInteger(w + rest) == Extracted(Stream(rest, false), NumeralValue(w))
  {
    if w[0] == '-' {
      SignThenDigits(w, rest);
      ParseNegative(w + rest, w[1..], rest);
    } else {
      ParseDigits(w, rest);
    }
  }

  lemma SignThenDigits(w: string, rest: string)
    requires w != []
    ensures (w + rest)[0] == w[0] && (w + rest)[1..] == w[1..] + rest
  {
  }

  /** Extracting an integer from a numeral after a blank gives the numeral's value. */
  lemma ReadNumeral(w: string, rest: string, target: int)
    requires IsNumeral(w) && (rest == [] || IsSpace(rest[0]))
    ensures ReadNumber(Stream(" " + w + rest, false), target) == Extracted(Stream(rest, false), NumeralValue(w))
  {
    assert " " + w + rest == " " + (w + rest);
    ReadAfterBlank(w + rest, target);
    ParseNumeral(w, rest);
  }

  /** Extracting a string from a blank-free word gives the word back. */
  lemma ReadWrittenWord(w: string, rest: string, target: string)
    requires w != [] && forall i :: 0 <= i < |w| ==> !IsSpace(w[i])
    requires rest == [] || IsSpace(rest[0])
    ensures ReadWord(Stream(w + rest, false), target) == Extracted(Stream(rest, false), w)
  {
    assert SkipSpace(w + rest) == w + rest;
    TokenLengthOfWord(w, rest);
    assert (w + rest)[..|w|] == w;
    assert (w + rest)[|w|..] == rest;
  }

  predicate AllNumerals(ws: seq<string>) {
    forall i :: 0 <= i < |ws| ==> IsNumeral(ws[i])
  }

  /** The words, each preceded by one blank. */
  function Spaced(ws: seq<string>): (s: string)
    ensures ws == [] <==> s == []
    ensures ws != [] ==> s[0] == ' '
  {
    if ws == [] then "" else " " + ws[0] + Spaced(ws[1..])
  }

  /** Numerals separated by blanks hold only blanks, minus signs and digits. */
  lemma {:induction false} SpacedLacks(ws: seq<string>, c: char)
    requires AllNumerals(ws)
    requires c != ' ' && c != '-' && !IsDigit(c)
    ensures c !in Spaced(ws)
  {
    if ws != [] {
      NumeralLacks(ws[0], c);
      SpacedLacks(ws[1..], c);
    }
  }

  lemma SpacedCons(ws: seq<string>, rest: string)
    requires ws != [] && (rest == [] || IsSpace(rest[0]))
    ensures Spaced(ws) + rest == " " + ws[0] + (Spaced(ws[1..]) + rest)
    ensures var r := Spaced(ws[1..]) + rest; r == [] || IsSpace(r[0])
  {
    var r := Spaced(ws[1..]) + rest;
    if ws[1..] != [] {
      assert r[0] == Spaced(ws[1..])[0];
    }
  }

  /** Extracting an integer from blank-separated numerals reads the first and leaves the others. */
  lemma ReadSpaced(ws: seq<string>, rest: string, target: int)
    requires ws != [] && AllNumerals(ws) && (rest == [] || IsSpace(rest[0]))
    ensures ReadNumber(Stream(Spaced(ws) + rest, false), target)
         == Extracted(Stream(Spaced(ws[1..]) + rest, false), NumeralValue(ws[0]))
  {
    SpacedCons(ws, rest);
    ReadNumeral(ws[0], Spaced(ws[1..]) + rest, target);
  }

  lemma ReadSpacedHead(ws: seq<string>, target: int)
    requires ws != [] && AllNumerals(ws)
    ensures ReadNumber(Stream(Spaced(ws), false), target)
         == Extracted(Stream(Spaced(ws[1..]), false), NumeralValue(ws[0]))
  {
    ReadSpaced(ws, [], target);
    assert Spaced(ws) + [] == Spaced(ws);
    assert Spaced(ws[1..]) + [] == Spaced(ws[1..]);
  }

  /** Skipping k of the numerals leaves the others. */
  lemma {:induction false} SkipSpacedPrefix(ws: seq<string>, k: nat)
    requires k <= |ws| && AllNumerals(ws)
    ensures SkipNumbers(Stream(Spaced(ws), false), k) == Stream(Spaced(ws[k..]), false)
  {
    if k > 0 {
      SkipSpacedStep(ws, k);
      SkipSpacedPrefix(ws[1..], k - 1);
      assert ws[1..][k - 1..] == ws[k..];
    } else {
      assert ws[0..] == ws;
    }
  }

  lemma SkipSpacedStep(ws: seq<string>, k: nat)
    requires 0 < k <= |ws| && AllNumerals(ws)
    ensures SkipNumbers(Stream(Spaced(ws), false), k) == SkipNumbers(Stream(Spaced(ws[1..]), false), k - 1)
  {
    ReadSpacedHead(ws, 0);
  }

  /**
   * What successive std::getline calls return: the pieces between newlines, with no empty
   * piece after a final newline.
   */
  function Lines(c: string): (ls: seq<string>)
    ensures c == [] <==> ls == []
    decreases |c|
  {
    if c == [] then []
    else
      var k := IndexOf(c, '\n');
      if k < 0 then [c] else [c[..k]] + Lines(c[k + 1..])
  }

  /** The first std::getline: it fails on an empty stream and stops before the first newline. */
  function FirstLine(c: string): (r: Option<string>)
    ensures c == [] <==> r == None
    ensures r.Some? ==> StartsWith(c, r.value)
  {
    if c == [] then None else Some(Lines(c)[0])
  }

  /** Writing each line followed by a newline. */
  function Unlines(ls: seq<string>): string
  {
    if ls == [] then "" else ls[0] + "\n" + Unlines(ls[1..])
  }

  /** Reading back lines written one per newline gives the same lines. */
  lemma {:induction false} LinesUnlines(ls: seq<string>)
    requires forall i :: 0 <= i < |ls| ==> '\n' !in ls[i]
    ensures Lines(Unlines(ls)) == ls
  {
    if ls != [] {
      LinesOfUnlinesCons(ls);
      LinesUnlines(ls[1..]);
    }
  }

  lemma LinesOfUnlinesCons(ls: seq<string>)
    requires ls != [] && '\n' !in ls[0]
    ensures Lines(Unlines(ls)) == [ls[0]] + Lines(Unlines(ls[1..]))
  {
    FirstNewline(ls[0], Unlines(ls[1..]));
  }

  /** The first newline written is the one after the first line. */
  lemma FirstNewline(l: string, more: string)
    requires '\n' !in l
    ensures var c := l + "\n" + more;
      IndexOf(c, '\n') == |l| && c[..|l|] == l && c[|l| + 1..] == more
  {
    var c := l + "\n" + more;
    assert c[|l|] == '\n';
    assert c[..|l|] == l;
    assert c[|l| + 1..] == more;
  }

  /** std::getline stops at the first newline. */
  lemma FirstLineOf(l: string, more: string)
    requires '\n' !in l
    ensures FirstLine(l + "\n" + more) == Some(l)
  {
    FirstNewline(l, more);
  }
}
