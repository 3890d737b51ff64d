/** The tokenizer `preprocess_text` (app.py:29-46) and its stop-word list
    (app.py:21-27). */
module Tokenizer {
  import opened Text

  const STOP_WORDS: set<string> := {
    "the", "be", "to", "of", "and", "a", "in", "that", "have", "i",
    "it", "for", "not", "on", "with", "he", "as", "you", "do", "at",
    "this", "but", "his", "by", "from", "they", "we", "say", "her", "she",
    "or", "an", "will", "my", "one", "all", "would", "there", "their",
    "what", "so", "up", "out", "if", "about", "who", "get", "which", "go", "me"
  }

  /** A character that survives lowercasing, the ASCII filter and the
      punctuation translation (it may still be whitespace). */
  predicate IsNormalChar(c: char) {
    IsAscii(c) && !IsAsciiUpper(c) && !IsPunctuation(c)
  }

  /** A character that can appear inside a token. */
  predicate IsTokenChar(c: char) {
    IsNormalChar(c) && !IsWhitespace(c)
  }

  /** What every token the tokenizer emits satisfies. */
  predicate IsToken(w: string) {
    |w| > 2 && w !in STOP_WORDS && forall i :: 0 <= i < |w| ==> IsTokenChar(w[i])
  }

  /** The first three steps of `preprocess_text`, in the source's order:
      `lower()`, the non-ASCII filter, punctuation to spaces. */
  function Normalize(t: string): (r: string)
    ensures forall i :: 0 <= i < |r| ==> IsNormalChar(r[i])
  {
    var lowered := Lower(t);
    var ascii := DropNonAscii(lowered);
    DropNonAsciiFrom(lowered);
    assert forall i :: 0 <= i < |ascii| ==> !IsAsciiUpper(ascii[i]) by {
      forall i | 0 <= i < |ascii| ensures !IsAsciiUpper(ascii[i]) {
        var j :| 0 <= j < |lowered| && lowered[j] == ascii[i];
      }
    }
    PunctuationToSpace(ascii)
  }

  /** The filter `word not in STOP_WORDS and len(word) > 2`. */
  predicate Keep(w: string) {
    w !in STOP_WORDS && |w| > 2
  }

  /** The list comprehension of app.py:44, order preserved. */
  function KeepWords(ws: seq<string>): (r: seq<string>)
    ensures (forall k :: 0 <= k < |ws| ==> Keep(ws[k])) ==> r == ws
  {
    if ws == [] then []
    else (if Keep(ws[0]) then [ws[0]] else []) + KeepWords(ws[1..])
  }

  /** The filter keeps only words that pass it, taken from `ws`. */
  lemma {:induction false} KeepWordsKept(ws: seq<string>)
    ensures forall k :: 0 <= k < |KeepWords(ws)| ==> Keep(KeepWords(ws)[k]) && KeepWords(ws)[k] in ws
  {
    if ws != [] {
      KeepWordsKept(ws[1..]);
    }
  }

  /** `preprocess_text(text)`: every token it returns is a token in the sense
      of `IsToken`. */
  function Preprocess(t: string): (r: seq<string>)
    ensures forall k :: 0 <= k < |r| ==> IsToken(r[k])
  {
    var normal := Normalize(t);
    var words := SplitWords(normal);
    var kept := KeepWords(words);
    SplitWordsChars(normal);
    KeepWordsKept(words);
    assert forall k :: 0 <= k < |kept| ==> IsToken(kept[k]) by {
      forall k | 0 <= k < |kept| ensures IsToken(kept[k]) {
        var m :| 0 <= m < |words| && words[m] == kept[k];
        forall j | 0 <= j < |kept[k]| ensures IsTokenChar(kept[k][j]) {
          assert words[m][j] in normal;
        }
      }
    }
    kept
  }

  lemma {:induction false} KeepWordsConcat(a: seq<string>, b: seq<string>)
    ensures KeepWords(a + b) == KeepWords(a) + KeepWords(b)
  {
    if a == [] {
      assert a + b == b;
    } else {
      assert (a + b)[1..] == a[1..] + b;
      KeepWordsConcat(a[1..], b);
    }
  }

  /** A whitespace character of the ASCII range (tab, line feed, vertical
      tab, form feed, carriage return, the separators 0x1C-0x1F, space)
      passes normalisation unchanged. */
  predicate IsAsciiSpace(c: char) {
    IsWhitespace(c) && IsAscii(c)
  }

  lemma NormalizeConcat(a: string, b: string, c: char)
    requires IsAsciiSpace(c)
    ensures Normalize(a + [c] + b) == Normalize(a) + [c] + Normalize(b)
  {
    LowerConcat(a + [c], b);
    LowerConcat(a, [c]);
    assert Lower([c]) == [c];
    DropNonAsciiConcat(Lower(a) + [c], Lower(b));
    DropNonAsciiConcat(Lower(a), [c]);
    assert DropNonAscii([c]) == [c];
    var x, y := DropNonAscii(Lower(a)), DropNonAscii(Lower(b));
    PunctuationToSpaceConcat(x + [c], y);
    PunctuationToSpaceConcat(x, [c]);
    assert PunctuationToSpace([c]) == [c];
  }

  /** Tokens come out in source order: tokenizing two texts joined by an
      ASCII whitespace character gives the tokens of the first followed by
      the tokens of the second. */
  lemma PreprocessConcat(a: string, b: string, c: char)
    requires IsAsciiSpace(c)
    ensures Preprocess(a + [c] + b) == Preprocess(a) + Preprocess(b)
  {
    NormalizeConcat(a, b, c);
    SplitWordsConcat(Normalize(a), Normalize(b), c);
    KeepWordsConcat(SplitWords(Normalize(a)), SplitWords(Normalize(b)));
  }

  /** A punctuation character turns into a space: `a + p + b` normalises to
      `a` and `b` normalised, joined by a space. */
  lemma NormalizePunctuationConcat(a: string, b: string, p: char)
    requires IsPunctuation(p)
    ensures Normalize(a + [p] + b) == Normalize(a) + [' '] + Normalize(b)
  {
    LowerConcat(a + [p], b);
    LowerConcat(a, [p]);
    assert Lower([p]) == [p];
    DropNonAsciiConcat(Lower(a) + [p], Lower(b));
    DropNonAsciiConcat(Lower(a), [p]);
    assert DropNonAscii([p]) == [p];
    var x, y := DropNonAscii(Lower(a)), DropNonAscii(Lower(b));
    PunctuationToSpaceConcat(x + [p], y);
    PunctuationToSpaceConcat(x, [p]);
    assert PunctuationToSpace([p]) == [' '];
  }

  /** Punctuation separates tokens: tokenizing `a + p + b` gives the tokens of
      `a` followed by those of `b`, so "e-mail" yields the tokens of "e" and
      of "mail", never "email". */
  lemma PreprocessPunctuationConcat(a: string, b: string, p: char)
    requires IsPunctuation(p)
    ensures Preprocess(a + [p] + b) == Preprocess(a) + Preprocess(b)
  {
    NormalizePunctuationConcat(a, b, p);
    SplitWordsConcat(Normalize(a), Normalize(b), ' ');
    KeepWordsConcat(SplitWords(Normalize(a)), SplitWords(Normalize(b)));
  }

  /** Tokenizing ignores ASCII case: lower-casing the text first changes
      nothing. */
  lemma PreprocessIgnoresCase(t: string)
    ensures Preprocess(Lower(t)) == Preprocess(t)
  {
    LowerIdempotent(t);
    assert Normalize(Lower(t)) == Normalize(t);
  }

  /** Text made of normalized characters passes the first three steps unchanged. */
  lemma NormalizeFixes(s: string)
    requires forall i :: 0 <= i < |s| ==> IsNormalChar(s[i])
    ensures Normalize(s) == s
  {
    assert Lower(s) == s;
  }

  /** Re-tokenizing the space-joined tokens returns the same tokens. */
  lemma PreprocessIdempotent(t: string)
    ensures Preprocess(JoinWords(Preprocess(t))) == Preprocess(t)
  {
    var ws := Preprocess(t);
    var s := JoinWords(ws);
    JoinWordsChars(ws);
    forall i | 0 <= i < |s| ensures IsNormalChar(s[i]) {
      if s[i] != ' ' {
        var k, j :| 0 <= k < |ws| && 0 <= j < |ws[k]| && ws[k][j] == s[i];
        assert IsTokenChar(ws[k][j]);
      }
    }
    NormalizeFixes(s);
    assert forall k :: 0 <= k < |ws| ==> IsWord(ws[k]) by {
      forall k | 0 <= k < |ws| ensures IsWord(ws[k]) {
        assert IsToken(ws[k]);
      }
    }
    SplitJoin(ws);
  }

  /** A token tokenizes to itself. */
  lemma PreprocessToken(w: string)
    requires IsToken(w)
    ensures Preprocess(w) == [w]
  {
    NormalizeFixes(w);
    assert JoinWords([w]) == w;
    SplitJoin([w]);
  }
}
