/** The string operations the parser uses, with the laws it relies on. */
module Text {

  predicate IsDigit(c: char) {
    '0' <= c <= '9'
  }

  predicate AllDigits(s: string) {
    forall i :: 0 <= i < |s| ==> IsDigit(s[i])
  }

  // WhiteSpace and LineTerminator of ECMA-262, which both `trim` and `\s` use.
  predicate IsSpace(c: char) {
    || c in {' ', '\t', '\n', '\r', '\U{000B}', '\U{000C}', '\U{00A0}', '\U{1680}'}
    || '\U{2000}' <= c <= '\U{200A}'
    || c in {'\U{2028}', '\U{2029}', '\U{202F}', '\U{205F}', '\U{3000}', '\U{FEFF}'}
  }

  /** The blanks by code point: the white space, space separators and line terminators of ECMA-262, sections 12.2 and 12.3. */
  lemma SpaceIff(c: char)
    ensures IsSpace(c) <==>
      var code := c as int;
      || 9 <= code <= 13 || code == 32 || code == 160 || code == 0x1680 || 0x2000 <= code <= 0x200A
      || code == 0x2028 || code == 0x2029 || code == 0x202F || code == 0x205F || code == 0x3000 || code == 0xFEFF
  {
    if 9 <= c as int <= 13 {
      assert c == 9 as char || c == 10 as char || c == 11 as char || c == 12 as char || c == 13 as char;
    }
  }

  // First position of `c`, or -1.
  function IndexOf(s: string, c: char): (i: int)
    ensures -1 <= i < |s|
    ensures i == -1 <==> c !in s
    ensures i >= 0 ==> s[i] == c
    ensures forall k :: 0 <= k < i ==> s[k] != c
  {
    if s == "" then -1
    else if s[0] == c then 0
    else
      var i := IndexOf(s[1..], c);
      if i < 0 then -1 else i + 1
  }

  // s.split(c)
  function Split(s: string, c: char): (r: seq<string>)
    ensures |r| >= 1
    ensures c in s ==> |r| >= 2
    decreases |s|
  {
    var i := IndexOf(s, c);
    if i < 0 then [s] else [s[..i]] + Split(s[i + 1..], c)
  }

  function Join(parts: seq<string>, c: char): string
    requires |parts| >= 1
  {
    if |parts| == 1 then parts[0] else parts[0] + [c] + Join(parts[1..], c)
  }

  lemma IndexOfFirst(a: string, c: char, s: string)
    requires c !in a && |a| < |s| && s[..|a|] == a && s[|a|] == c
    ensures IndexOf(s, c) == |a|
  {
    assert forall k :: 0 <= k < |a| ==> s[k] == a[k];
  }

  lemma SplitWhole(s: string, c: char)
    requires c !in s
    ensures Split(s, c) == [s]
  {
  }

  lemma SplitStep(a: string, c: char, b: string)
    requires c !in a
    ensures Split(a + [c] + b, c) == [a] + Split(b, c)
  {
    var s := a + [c] + b;
    assert s[..|a|] == a && s[|a|] == c && s[|a| + 1..] == b;
    IndexOfFirst(a, c, s);
  }

  /** Splitting undoes joining when the parts are free of the separator. */
  lemma {:induction false} SplitOfJoin(parts: seq<string>, c: char)
    requires |parts| >= 1
    requires forall i :: 0 <= i < |parts| ==> c !in parts[i]
    ensures Split(Join(parts, c), c) == parts
    decreases |parts|
  {
    if |parts| > 1 {
      var rest := parts[1..];
      SplitOfJoin(rest, c);
      SplitStep(parts[0], c, Join(rest, c));
      assert parts == [parts[0]] + rest;
    }
  }

  // ---- decimal numerals ---------------------------------------------------

  function DigitValue(c: char): (v: nat)
    requires IsDigit(c)
    ensures v < 10
  {
    c as int - '0' as int
  }

  function DigitChar(v: nat): (c: char)
    requires v < 10
    ensures IsDigit(c) && DigitValue(c) == v
  {
    ('0' as int + v) as char
  }

  function DecimalValue(s: string): nat
    requires AllDigits(s)
  {
    if s == "" then 0 else 10 * DecimalValue(s[..|s| - 1]) + DigitValue(s[|s| - 1])
  }

  // The usual numeral, without leading zeros.
  function Decimal(n: nat): (s: string)
    ensures s != "" && AllDigits(s) && DecimalValue(s) == n
  {
    if n < 10 then
      var s := [DigitChar(n)];
      assert s[..0] == "" && DecimalValue(s) == 10 * DecimalValue(s[..0]) + DigitValue(s[0]);
      s
    else
      var s := Decimal(n / 10) + [DigitChar(n % 10)];
      assert s[..|s| - 1] == Decimal(n / 10);
      s
  }

  // ---- words --------------------------------------------------------------

  // Length of the leading run of characters that are (or are not) spaces.
  function RunLength(s: string, spaces: bool): (n: nat)
    ensures n <= |s|
    ensures forall i :: 0 <= i < n ==> IsSpace(s[i]) == spaces
    ensures n < |s| ==> IsSpace(s[n]) != spaces
  {
    if s == "" || IsSpace(s[0]) != spaces then 0 else 1 + RunLength(s[1..], spaces)
  }

  // s.trim().split(/\s+/), except that a blank text gives no word instead of one empty word.
  function Words(s: string): (r: seq<string>)
    ensures forall i :: 0 <= i < |r| ==> r[i] != ""
    decreases |s|
  {
    var t := s[RunLength(s, true)..];
    if t == "" then [] else
    var n := RunLength(t, false);
    [t[..n]] + Words(t[n..])
  }

  predicate IsWord(s: string) {
    s != "" && forall i :: 0 <= i < |s| ==> !IsSpace(s[i])
  }

  lemma RunLengthIs(s: string, spaces: bool, n: nat)
    requires n <= |s|
    requires forall i :: 0 <= i < n ==> IsSpace(s[i]) == spaces
    requires n < |s| ==> IsSpace(s[n]) != spaces
    ensures RunLength(s, spaces) == n
  {
  }

  lemma WordsOfBlank(s: string)
    requires forall i :: 0 <= i < |s| ==> IsSpace(s[i])
    ensures Words(s) == []
  {
    RunLengthIs(s, true, |s|);
  }

  lemma WordsUnfold(s: string, t: string, n: nat)
    requires t == s[RunLength(s, true)..] && t != "" && n == RunLength(t, false)
    ensures Words(s) == [t[..n]] + Words(t[n..])
  {
  }

  lemma Cut(a: string, b: string)
    ensures (a + b)[..|a|] == a && (a + b)[|a|..] == b
  {
  }

  lemma BlankRun(blank: string, t: string)
    requires forall i :: 0 <= i < |blank| ==> IsSpace(blank[i])
    requires t != "" && !IsSpace(t[0])
    ensures RunLength(blank + t, true) == |blank|
  {
    RunLengthIs(blank + t, true, |blank|);
  }

  lemma WordRun(word: string, rest: string)
    requires IsWord(word) && (rest != "" ==> IsSpace(rest[0]))
    ensures RunLength(word + rest, false) == |word|
  {
    RunLengthIs(word + rest, false, |word|);
  }

  // A text that starts with blanks and one word reads as that word and the rest.
  lemma WordsStep(blank: string, word: string, rest: string)
    requires forall i :: 0 <= i < |blank| ==> IsSpace(blank[i])
    requires IsWord(word) && (rest != "" ==> IsSpace(rest[0]))
    ensures Words(blank + word + rest) == [word] + Words(rest)
  {
    var t := word + rest;
    assert blank + word + rest == blank + t;
    BlankRun(blank, t);
    WordRun(word, rest);
    Cut(blank, t);
    Cut(word, rest);
    WordsUnfold(blank + t, t, |word|);
  }
}
