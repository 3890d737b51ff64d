/** String primitives the engine relies on: Python's character classes,
    `str.lower()` restricted to ASCII, the non-ASCII filter, the punctuation
    translation, `str.split()`, `str.strip()` and `str.split('\n')`. */
module Text {

  /** Python's `str.isspace()`: the set `str.split()` and `str.strip()` use. */
  predicate IsWhitespace(c: char) {
    var n := c as int;
    (9 <= n <= 13) || (28 <= n <= 32) || n == 0x85 || n == 0xA0 || n == 0x1680
    || (0x2000 <= n <= 0x200A) || n == 0x2028 || n == 0x2029 || n == 0x202F
    || n == 0x205F || n == 0x3000
  }

  /** Membership in `string.punctuation`: ``!"#$%&'()*+,-./:;<=>?@[\]^_`{|}~``. */
  predicate IsPunctuation(c: char) {
    var n := c as int;
    (33 <= n <= 47) || (58 <= n <= 64) || (91 <= n <= 96) || (123 <= n <= 126)
  }

  predicate IsAscii(c: char) {
    c as int < 128
  }

  predicate IsAsciiUpper(c: char) {
    'A' <= c <= 'Z'
  }

  /** `str.lower()` on one character, for the ASCII range only. */
  function ToLower(c: char): (r: char)
    ensures !IsAsciiUpper(r)
    ensures IsAscii(r) <==> IsAscii(c)
    ensures !IsAsciiUpper(c) ==> r == c
    ensures IsAsciiUpper(c) ==> r as int == c as int + 32
  {
    if IsAsciiUpper(c) then (c as int + 32) as char else c
  }

  function Lower(s: string): (r: string)
    ensures |r| == |s|
    ensures forall i :: 0 <= i < |s| ==> r[i] == ToLower(s[i])
  {
    seq(|s|, i requires 0 <= i < |s| => ToLower(s[i]))
  }

  /** Lowering twice is lowering once, so lower-cased text is left alone. */
  lemma LowerIdempotent(s: string)
    ensures forall i :: 0 <= i < |Lower(s)| ==> !IsAsciiUpper(Lower(s)[i])
    ensures Lower(Lower(s)) == Lower(s)
  {
  }

  /** `''.join(ch for ch in s if ord(ch) < 128)`. */
  function DropNonAscii(s: string): (r: string)
    ensures forall i :: 0 <= i < |r| ==> IsAscii(r[i])
    ensures (forall i :: 0 <= i < |s| ==> IsAscii(s[i])) ==> r == s
  {
    if s == [] then []
    else (if IsAscii(s[0]) then [s[0]] else []) + DropNonAscii(s[1..])
  }

  /** The filter only drops characters: what is left comes from `s`. */
  lemma {:induction false} DropNonAsciiFrom(s: string)
    ensures forall i :: 0 <= i < |DropNonAscii(s)| ==> DropNonAscii(s)[i] in s
  {
    if s != [] {
      DropNonAsciiFrom(s[1..]);
    }
  }

  /** `s.translate(str.maketrans(string.punctuation, ' ' * len(string.punctuation)))`. */
  function PunctuationToSpace(s: string): (r: string)
    ensures |r| == |s|
    ensures forall i :: 0 <= i < |s| ==> r[i] == (if IsPunctuation(s[i]) then ' ' else s[i])
  {
    seq(|s|, i requires 0 <= i < |s| => if IsPunctuation(s[i]) then ' ' else s[i])
  }

  lemma LowerConcat(a: string, b: string)
    ensures Lower(a + b) == Lower(a) + Lower(b)
  {
  }

  lemma PunctuationToSpaceConcat(a: string, b: string)
    ensures PunctuationToSpace(a + b) == PunctuationToSpace(a) + PunctuationToSpace(b)
  {
  }

  lemma {:induction false} DropNonAsciiConcat(a: string, b: string)
    ensures DropNonAscii(a + b) == DropNonAscii(a) + DropNonAscii(b)
  {
    if a != [] {
      assert (a + b)[1..] == a[1..] + b;
      DropNonAsciiConcat(a[1..], b);
    } else {
      assert a + b == b;
    }
  }

  // ---------------------------------------------------------------------------
  // str.split(): words separated by runs of whitespace

  predicate IsWord(w: string) {
    w != [] && forall i :: 0 <= i < |w| ==> !IsWhitespace(w[i])
  }

  /** Scanner behind `SplitWords`: `cur` is the word read so far. */
  function SplitFrom(s: string, cur: string): (r: seq<string>)
    requires forall i :: 0 <= i < |cur| ==> !IsWhitespace(cur[i])
    ensures forall k :: 0 <= k < |r| ==> IsWord(r[k])
    decreases |s|
  {
    if s == [] then
      (if cur == [] then [] else [cur])
    else if IsWhitespace(s[0]) then
      (if cur == [] then [] else [cur]) + SplitFrom(s[1..], [])
    else
      SplitFrom(s[1..], cur + [s[0]])
  }

  /** Python's `s.split()` with no separator. */
  function SplitWords(s: string): (r: seq<string>)
    ensures forall k :: 0 <= k < |r| ==> IsWord(r[k])
  {
    SplitFrom(s, [])
  }

  lemma {:induction false} SplitFromChars(s: string, cur: string)
    requires forall i :: 0 <= i < |cur| ==> !IsWhitespace(cur[i])
    ensures forall k, j :: 0 <= k < |SplitFrom(s, cur)| && 0 <= j < |SplitFrom(s, cur)[k]| ==>
      SplitFrom(s, cur)[k][j] in cur || SplitFrom(s, cur)[k][j] in s
    decreases |s|
  {
    if s != [] {
      if IsWhitespace(s[0]) {
        SplitFromChars(s[1..], []);
      } else {
        SplitFromChars(s[1..], cur + [s[0]]);
      }
    }
  }

  /** Splitting only regroups characters: every character of every word comes from `s`. */
  lemma SplitWordsChars(s: string)
    ensures forall k, j :: 0 <= k < |SplitWords(s)| && 0 <= j < |SplitWords(s)[k]| ==> SplitWords(s)[k][j] in s
  {
    SplitFromChars(s, []);
  }

  /** `' '.join(ws)`. */
  function JoinWords(ws: seq<string>): string {
    if ws == [] then []
    else if |ws| == 1 then ws[0]
    else ws[0] + [' '] + JoinWords(ws[1..])
  }

  lemma {:induction false} SplitFromConcat(a: string, b: string, c: char, cur: string)
    requires IsWhitespace(c)
    requires forall i :: 0 <= i < |cur| ==> !IsWhitespace(cur[i])
    ensures SplitFrom(a + [c] + b, cur) == SplitFrom(a, cur) + SplitFrom(b, [])
    decreases |a|
  {
    if a == [] {
      assert a + [c] + b == [c] + b;
      assert ([c] + b)[1..] == b;
    } else {
      assert (a + [c] + b)[0] == a[0];
      assert (a + [c] + b)[1..] == a[1..] + [c] + b;
      if IsWhitespace(a[0]) {
        SplitFromConcat(a[1..], b, c, []);
      } else {
        SplitFromConcat(a[1..], b, c, cur + [a[0]]);
      }
    }
  }

  /** Splitting respects any separating whitespace character: the words of
      `a + c + b` are those of `a` followed by those of `b`, in order. */
  lemma SplitWordsConcat(a: string, b: string, c: char)
    requires IsWhitespace(c)
    ensures SplitWords(a + [c] + b) == SplitWords(a) + SplitWords(b)
  {
    SplitFromConcat(a, b, c, []);
  }

  lemma {:induction false} SplitFromSingleWord(w: string, cur: string)
    requires forall i :: 0 <= i < |cur| ==> !IsWhitespace(cur[i])
    requires forall i :: 0 <= i < |w| ==> !IsWhitespace(w[i])
    requires cur + w != []
    ensures SplitFrom(w, cur) == [cur + w]
    decreases |w|
  {
    if w == [] {
      assert cur + w == cur;
    } else {
      assert cur + w == (cur + [w[0]]) + w[1..];
      SplitFromSingleWord(w[1..], cur + [w[0]]);
    }
  }

  /** Round trip of `' '.join` and `split()` on whitespace-free, non-empty words. */
  lemma {:induction false} SplitJoin(ws: seq<string>)
    requires forall k :: 0 <= k < |ws| ==> IsWord(ws[k])
    ensures SplitWords(JoinWords(ws)) == ws
  {
    if ws == [] {
    } else if |ws| == 1 {
      assert [] + ws[0] == ws[0];
      SplitFromSingleWord(ws[0], []);
    } else {
      SplitWordsConcat(ws[0], JoinWords(ws[1..]), ' ');
      assert [] + ws[0] == ws[0];
      SplitFromSingleWord(ws[0], []);
      SplitJoin(ws[1..]);
      assert ws == [ws[0]] + ws[1..];
    }
  }

  /** Every character of `' '.join(ws)` is a space or a character of some word. */
  lemma {:induction false} JoinWordsChars(ws: seq<string>)
    ensures forall i :: 0 <= i < |JoinWords(ws)| ==>
      JoinWords(ws)[i] == ' ' || exists k, j :: 0 <= k < |ws| && 0 <= j < |ws[k]| && ws[k][j] == JoinWords(ws)[i]
  {
    if |ws| > 1 {
      JoinWordsChars(ws[1..]);
      var r := JoinWords(ws);
      var t := JoinWords(ws[1..]);
      assert r == ws[0] + [' '] + t;
      forall i | 0 <= i < |r|
        ensures r[i] == ' ' || exists k, j :: 0 <= k < |ws| && 0 <= j < |ws[k]| && ws[k][j] == r[i]
      {
        if i < |ws[0]| {
          assert ws[0][i] == r[i];
        } else if i > |ws[0]| {
          var i' := i - |ws[0]| - 1;
          assert r[i] == t[i'];
          if t[i'] != ' ' {
            var k, j :| 0 <= k < |ws[1..]| && 0 <= j < |ws[1..][k]| && ws[1..][k][j] == t[i'];
            assert ws[k + 1][j] == r[i];
          }
        }
      }
    } else if |ws| == 1 {
      forall i | 0 <= i < |ws[0]| ensures ws[0][i] == JoinWords(ws)[i] { }
    }
  }

  // ---------------------------------------------------------------------------
  // str.strip()

  /** Number of whitespace characters at the start of `s`. */
  function LeadingSpaces(s: string): (n: nat)
    ensures n <= |s|
    ensures forall i :: 0 <= i < n ==> IsWhitespace(s[i])
    ensures n < |s| ==> !IsWhitespace(s[n])
  {
    if s != [] && IsWhitespace(s[0]) then 1 + LeadingSpaces(s[1..]) else 0
  }

  function TrimEnd(s: string): (r: string)
    ensures |r| <= |s| && r == s[..|r|]
    ensures forall i :: |r| <= i < |s| ==> IsWhitespace(s[i])
    ensures r != [] ==> !IsWhitespace(r[|r| - 1])
  {
    if s != [] && IsWhitespace(s[|s| - 1]) then TrimEnd(s[..|s| - 1]) else s
  }

  /** Python's `s.strip()`: the slice of `s` left after removing whitespace at
      both ends. */
  function Strip(s: string): (r: string)
    ensures LeadingSpaces(s) + |r| <= |s|
    ensures r == s[LeadingSpaces(s)..LeadingSpaces(s) + |r|]
    ensures forall i :: LeadingSpaces(s) + |r| <= i < |s| ==> IsWhitespace(s[i])
    ensures r != [] ==> !IsWhitespace(r[0]) && !IsWhitespace(r[|r| - 1])
  {
    var lo := LeadingSpaces(s);
    var r := TrimEnd(s[lo..]);
    assert s[lo..][..|r|] == s[lo..lo + |r|];
    r
  }

  /** `not s.strip()`: a line is blank exactly when all its characters are whitespace. */
  lemma StripEmptyIffBlank(s: string)
    ensures Strip(s) == [] <==> forall i :: 0 <= i < |s| ==> IsWhitespace(s[i])
  {
    var r := Strip(s);
    var lo := LeadingSpaces(s);
    if r != [] {
      assert s[lo] == r[0];
    }
  }

  // ---------------------------------------------------------------------------
  // str.split('\n')

  function CountChar(s: string, c: char): nat {
    if s == [] then 0 else (if s[0] == c then 1 else 0) + CountChar(s[1..], c)
  }

  function SplitLinesFrom(s: string, cur: string): (r: seq<string>)
    ensures |r| == CountChar(s, '\n') + 1
    ensures '\n' !in cur ==> forall k :: 0 <= k < |r| ==> '\n' !in r[k]
    decreases |s|
  {
    if s == [] then [cur]
    else if s[0] == '\n' then [cur] + SplitLinesFrom(s[1..], [])
    else SplitLinesFrom(s[1..], cur + [s[0]])
  }

  /** Python's `s.split('\n')`: always at least one (possibly empty) line. */
  function SplitLines(s: string): (r: seq<string>)
    ensures |r| == CountChar(s, '\n') + 1
    ensures forall k :: 0 <= k < |r| ==> '\n' !in r[k]
  {
    SplitLinesFrom(s, [])
  }

  /** `'\n'.join(lines)`. */
  function JoinLines(lines: seq<string>): string
    requires lines != []
  {
    if |lines| == 1 then lines[0] else lines[0] + ['\n'] + JoinLines(lines[1..])
  }

  lemma {:induction false} JoinSplitLinesFrom(s: string, cur: string)
    ensures JoinLines(SplitLinesFrom(s, cur)) == cur + s
    decreases |s|
  {
    if s == [] {
      assert cur + s == cur;
    } else if s[0] == '\n' {
      JoinSplitLinesFrom(s[1..], []);
      var tail := SplitLinesFrom(s[1..], []);
      assert ([cur] + tail)[1..] == tail;
      assert [] + s[1..] == s[1..];
      assert cur + s == cur + ['\n'] + s[1..];
    } else {
      JoinSplitLinesFrom(s[1..], cur + [s[0]]);
      assert cur + s == cur + [s[0]] + s[1..];
    }
  }

  /** `'\n'.join(s.split('\n')) == s`: splitting into lines loses nothing. */
  lemma JoinSplitLines(s: string)
    ensures JoinLines(SplitLines(s)) == s
  {
    JoinSplitLinesFrom(s, []);
    assert [] + s == s;
  }
}
