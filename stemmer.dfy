/** The suffix stripper `simple_stem` (app.py:48-54). */
module Stemmer {

  /** The suffixes, in the order they are tried. */
  const SUFFIXES: seq<string> := ["ing", "ed", "es", "s", "ly", "tion", "ness", "ment"]

  predicate EndsWith(w: string, suffix: string) {
    |suffix| <= |w| && w[|w| - |suffix|..] == suffix
  }

  /** Suffix number `k` qualifies for `w`: `w.endswith(suffix) and len(w) > len(suffix) + 2`. */
  predicate Fires(w: string, k: nat)
    requires k < |SUFFIXES|
  {
    EndsWith(w, SUFFIXES[k]) && |w| > |SUFFIXES[k]| + 2
  }

  /** The loop of `simple_stem` from suffix number `k` on. */
  function StemFrom(w: string, k: nat): (r: string)
    requires k <= |SUFFIXES|
    ensures (forall j :: k <= j < |SUFFIXES| ==> !Fires(w, j)) ==> r == w
    ensures forall j :: k <= j < |SUFFIXES| && Fires(w, j) && (forall i :: k <= i < j ==> !Fires(w, i)) ==>
      r == w[..|w| - |SUFFIXES[j]|]
    decreases |SUFFIXES| - k
  {
    if k == |SUFFIXES| then w
    else if Fires(w, k) then w[..|w| - |SUFFIXES[k]|]
    else StemFrom(w, k + 1)
  }

  /** `simple_stem(w)`: the word unchanged when no suffix qualifies, otherwise
      the word minus the FIRST qualifying suffix in list order. */
  function Stem(w: string): (r: string)
    ensures (forall j :: 0 <= j < |SUFFIXES| ==> !Fires(w, j)) ==> r == w
    ensures forall j :: 0 <= j < |SUFFIXES| && Fires(w, j) && (forall i :: 0 <= i < j ==> !Fires(w, i)) ==>
      r == w[..|w| - |SUFFIXES[j]|]
  {
    StemFrom(w, 0)
  }

  /** The stem is a prefix of the word; when something was stripped, exactly
      one listed suffix went and more than two characters remain. */
  lemma {:induction false} StemShape(w: string)
    ensures |Stem(w)| <= |w| && Stem(w) == w[..|Stem(w)|]
    ensures Stem(w) != w ==> |Stem(w)| > 2
    ensures Stem(w) != w ==> exists k :: 0 <= k < |SUFFIXES| && Fires(w, k) && Stem(w) + SUFFIXES[k] == w
  {
    if forall j :: 0 <= j < |SUFFIXES| ==> !Fires(w, j) {
    } else {
      var k :| 0 <= k < |SUFFIXES| && Fires(w, k);
      var first := FirstFiring(w, k);
      StripShape(w, first);
    }
  }

  /** Removing a qualifying suffix leaves a prefix of more than two
      characters that the suffix completes to the word. */
  lemma StripShape(w: string, k: nat)
    requires k < |SUFFIXES| && Fires(w, k)
    ensures var r := w[..|w| - |SUFFIXES[k]|]; r == w[..|r|] && |r| > 2 && r + SUFFIXES[k] == w && r != w
  {
    var n := |w| - |SUFFIXES[k]|;
    assert w[n..] == SUFFIXES[k];
    assert w[..n] + w[n..] == w;
  }

  /** The least index of a qualifying suffix, given that `k` qualifies. */
  lemma {:induction false} FirstFiring(w: string, k: nat) returns (first: nat)
    requires k < |SUFFIXES| && Fires(w, k)
    ensures first <= k && Fires(w, first)
    ensures forall i :: 0 <= i < first ==> !Fires(w, i)
    decreases k
  {
    if exists i :: 0 <= i < k && Fires(w, i) {
      var i :| 0 <= i < k && Fires(w, i);
      first := FirstFiring(w, i);
    } else {
      first := k;
    }
  }

  /** The `'ness'` entry can never be the one applied: a word ending in
      "ness" long enough to qualify loses only its final "s". */
  lemma NessNeverApplies(w: string)
    requires EndsWith(w, "ness") && |w| > 6
    ensures Stem(w) == w[..|w| - 1]
  {
    assert w[|w| - 1..] == w[|w| - 4..][3..];
    assert Fires(w, 3);
    assert !Fires(w, 0) by { assert w[|w| - 3..] == w[|w| - 4..][1..]; }
    assert !Fires(w, 1) && !Fires(w, 2) by { assert w[|w| - 2..] == w[|w| - 4..][2..]; }
  }

  /** Stemming is not idempotent: "classes" stems to "class", which stems to "clas". */
  lemma StemNotIdempotent()
    ensures Stem("classes") == "class"
    ensures Stem("class") == "clas"
  {
    assert !Fires("classes", 0) && !Fires("classes", 1) && Fires("classes", 2);
    assert !Fires("class", 0) && !Fires("class", 1) && !Fires("class", 2) && Fires("class", 3);
  }
}
