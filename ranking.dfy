/** Query resolution and result formatting of `search_documents`
    (app.py:86-145), stated on values: the class method in `Engine` is proved
    to compute `SearchSpec`, and the lemmas here say what that result is. */
module Ranking {
  import opened Tokenizer
  import opened Postings

  /** At most this many lines are reported per document (app.py:139). */
  const MAX_RESULT_LINES: nat := 20

  datatype LineHit = LineHit(lineNum: nat, content: string)

  /** One entry of the result list: `{document, doc_id, matches, total_lines, lines}`. */
  datatype SearchResult = SearchResult(document: string, docId: string, matches: nat, totalLines: nat, lines: seq<LineHit>)

  /** `query_words`: the stems of the query's tokens, repetitions kept. */
  function QueryTerms(query: string): seq<string> {
    Stems(Preprocess(query))
  }

  // ---------------------------------------------------------------------------
  // Grouping occurrences by document, in first-encounter order

  /** An insertion-ordered dict from doc_id to occurrences: `order` is the
      key order Python iterates in. */
  datatype Groups = Groups(order: seq<string>, byDoc: map<string, seq<Occurrence>>)

  predicate Distinct<T(==)>(s: seq<T>) {
    forall i, j :: 0 <= i < j < |s| ==> s[i] != s[j]
  }

  /** The key order lists each key of the dict exactly once. */
  predicate WellFormedGroups(g: Groups) {
    Distinct(g.order) && (forall d :: d in g.byDoc ==> d in g.order) &&
    forall i :: 0 <= i < |g.order| ==> g.order[i] in g.byDoc
  }

  /** `results[occ['doc_id']].append(occ)` on a `defaultdict(list)`. */
  function AddOccurrence(g: Groups, o: Occurrence): Groups {
    if o.docId in g.byDoc then Groups(g.order, g.byDoc[o.docId := g.byDoc[o.docId] + [o]])
    else Groups(g.order + [o.docId], g.byDoc[o.docId := [o]])
  }

  /** The grouping loop of the single-term path (app.py:102-105). */
  function Group(occs: seq<Occurrence>): Groups
    decreases |occs|
  {
    if occs == [] then Groups([], map[])
    else AddOccurrence(Group(occs[..|occs| - 1]), occs[|occs| - 1])
  }

  /** The occurrences of document `d`, in order. */
  function OfDoc(occs: seq<Occurrence>, d: string): seq<Occurrence>
    decreases |occs|
  {
    if occs == [] then []
    else OfDoc(occs[..|occs| - 1], d) + (if occs[|occs| - 1].docId == d then [occs[|occs| - 1]] else [])
  }

  function Docs(occs: seq<Occurrence>): set<string> {
    set o | o in occs :: o.docId
  }

  /** Index of the first occurrence of document `d` (`|occs|` when there is none). */
  function FirstIndex(occs: seq<Occurrence>, d: string): (r: nat)
    ensures r <= |occs|
    ensures r < |occs| ==> occs[r].docId == d
    ensures forall i :: 0 <= i < r ==> occs[i].docId != d
  {
    if occs == [] then 0 else if occs[0].docId == d then 0 else 1 + FirstIndex(occs[1..], d)
  }

  /** Documents listed by increasing index of their first occurrence. */
  predicate FirstEncounterOrder(order: seq<string>, occs: seq<Occurrence>) {
    forall i, j :: 0 <= i < j < |order| ==> FirstIndex(occs, order[i]) < FirstIndex(occs, order[j])
  }

  /** Appending leaves a first occurrence already met where it was. */
  lemma {:induction false} FirstIndexSnocKnown(occs: seq<Occurrence>, o: Occurrence, d: string)
    requires FirstIndex(occs, d) < |occs|
    ensures FirstIndex(occs + [o], d) == FirstIndex(occs, d)
  {
    var all := occs + [o];
    assert forall i :: 0 <= i < |occs| ==> all[i] == occs[i];
  }

  /** The first occurrence of a document not met before is the appended one. */
  lemma {:induction false} FirstIndexSnocNew(occs: seq<Occurrence>, o: Occurrence)
    requires o.docId !in Docs(occs)
    ensures FirstIndex(occs + [o], o.docId) == |occs|
  {
    var all := occs + [o];
    forall i | 0 <= i < |occs| ensures all[i].docId != o.docId {
      assert all[i] == occs[i];
      assert occs[i] in occs;
    }
    assert all[|occs|] == o;
  }

  lemma {:induction false} OfDocAbsent(occs: seq<Occurrence>, d: string)
    requires d !in Docs(occs)
    ensures OfDoc(occs, d) == []
    decreases |occs|
  {
    if occs != [] {
      var init := occs[..|occs| - 1];
      assert Docs(init) <= Docs(occs) by {
        forall x | x in Docs(init) ensures x in Docs(occs) {
          var y :| y in init && y.docId == x;
          var k :| 0 <= k < |init| && init[k] == y;
          assert occs[k] == y;
        }
      }
      OfDocAbsent(init, d);
      assert occs[|occs| - 1] in occs;
    }
  }

  lemma {:induction false} DocsSnoc(occs: seq<Occurrence>, o: Occurrence)
    ensures Docs(occs + [o]) == Docs(occs) + {o.docId}
  {
    var all := occs + [o];
    forall x | x in Docs(all) ensures x in Docs(occs) + {o.docId} {
      var y :| y in all && y.docId == x;
      var k :| 0 <= k < |all| && all[k] == y;
      if k < |occs| {
        assert occs[k] == y;
      }
    }
    forall x | x in Docs(occs) ensures x in Docs(all) {
      var y :| y in occs && y.docId == x;
      var k :| 0 <= k < |occs| && occs[k] == y;
      assert all[k] == y;
    }
    assert all[|occs|] == o;
  }

  /** The grouping lists each document exactly once. */
  lemma {:induction false} GroupWellFormed(occs: seq<Occurrence>)
    ensures WellFormedGroups(Group(occs))
    decreases |occs|
  {
    if occs != [] {
      GroupWellFormed(occs[..|occs| - 1]);
    }
  }

  /** The grouped documents are those of the occurrences. */
  lemma {:induction false} GroupKeys(occs: seq<Occurrence>)
    ensures Group(occs).byDoc.Keys == Docs(occs)
    decreases |occs|
  {
    if occs != [] {
      var init, o := occs[..|occs| - 1], occs[|occs| - 1];
      assert occs == init + [o];
      GroupKeys(init);
      DocsSnoc(init, o);
    }
  }

  /** Under each document are exactly its occurrences, in order. */
  lemma {:induction false} GroupContents(occs: seq<Occurrence>)
    ensures forall d :: d in Group(occs).byDoc ==> Group(occs).byDoc[d] == OfDoc(occs, d)
    decreases |occs|
  {
    if occs != [] {
      var init, o := occs[..|occs| - 1], occs[|occs| - 1];
      GroupContents(init);
      GroupKeys(init);
      var g := Group(init);
      forall d | d in Group(occs).byDoc ensures Group(occs).byDoc[d] == OfDoc(occs, d) {
        if d !in g.byDoc {
          OfDocAbsent(init, d);
        }
      }
    }
  }

  /** The grouping puts every occurrence under its document, keeps each
      document's occurrences in order, and lists each document exactly once. */
  lemma GroupSpec(occs: seq<Occurrence>)
    ensures WellFormedGroups(Group(occs))
    ensures Group(occs).byDoc.Keys == Docs(occs)
    ensures forall d :: d in Group(occs).byDoc ==> Group(occs).byDoc[d] == OfDoc(occs, d)
  {
    GroupWellFormed(occs);
    GroupKeys(occs);
    GroupContents(occs);
  }

  /** The documents are listed in the order their first occurrence was met. */
  lemma {:induction false} GroupOrder(occs: seq<Occurrence>)
    ensures FirstEncounterOrder(Group(occs).order, occs)
    ensures forall i :: 0 <= i < |Group(occs).order| ==> FirstIndex(occs, Group(occs).order[i]) < |occs|
    decreases |occs|
  {
    if occs != [] {
      var init, o := occs[..|occs| - 1], occs[|occs| - 1];
      assert occs == init + [o];
      GroupOrder(init);
      GroupKeys(init);
      var g := Group(init);
      var order := Group(occs).order;
      forall i | 0 <= i < |g.order| ensures FirstIndex(occs, g.order[i]) == FirstIndex(init, g.order[i]) {
        FirstIndexSnocKnown(init, o, g.order[i]);
      }
      if o.docId !in g.byDoc {
        assert order == g.order + [o.docId];
        FirstIndexSnocNew(init, o);
        forall i, j | 0 <= i < j < |order| ensures FirstIndex(occs, order[i]) < FirstIndex(occs, order[j]) {
          assert order[i] == g.order[i];
          if j < |g.order| {
            assert order[j] == g.order[j];
          }
        }
        forall i | 0 <= i < |order| ensures FirstIndex(occs, order[i]) < |occs| {
          if i < |g.order| {
            assert order[i] == g.order[i];
          }
        }
      }
    }
  }

  // ---------------------------------------------------------------------------
  // The multi-term path

  /** `doc_matches[doc_id]`: the collected occurrences and the set of query
      words seen for the document (`word_count`). */
  datatype DocMatch = DocMatch(occurrences: seq<Occurrence>, wordCount: set<string>)

  datatype Matches = Matches(order: seq<string>, byDoc: map<string, DocMatch>)

  /** One step of the inner loop of app.py:112-115. */
  function AddHit(m: Matches, p: Posting): Matches {
    var d := p.occ.docId;
    if d in m.byDoc then
      Matches(m.order, m.byDoc[d := DocMatch(m.byDoc[d].occurrences + [p.occ], m.byDoc[d].wordCount + {p.term})])
    else
      Matches(m.order + [d], m.byDoc[d := DocMatch([p.occ], {p.term})])
  }

  function Collect(hits: seq<Posting>): Matches
    decreases |hits|
  {
    if hits == [] then Matches([], map[])
    else AddHit(Collect(hits[..|hits| - 1]), hits[|hits| - 1])
  }

  /** The postings the loop visits for one query word: none when the word is
      not a key, otherwise the word's whole list. */
  function WordHits(inv: InvertedIndex, w: string): (r: seq<Posting>)
    ensures |r| == |Lookup(inv, w)|
    ensures forall i :: 0 <= i < |r| ==> r[i] == Posting(w, inv[w][i])
  {
    if w in inv then seq(|inv[w]|, i requires 0 <= i < |inv[w]| => Posting(w, inv[w][i])) else []
  }

  /** Everything the double loop of app.py:110-115 visits, in order. */
  function QueryHits(inv: InvertedIndex, words: seq<string>): seq<Posting>
    decreases |words|
  {
    if words == [] then [] else QueryHits(inv, words[..|words| - 1]) + WordHits(inv, words[|words| - 1])
  }

  /** The outer loop's step: after the first `w + 1` words, the visited
      postings are those of the first `w` words followed by word `w`'s. */
  lemma QueryHitsStep(inv: InvertedIndex, words: seq<string>, w: nat)
    requires w < |words|
    ensures QueryHits(inv, words[..w + 1]) == QueryHits(inv, words[..w]) + WordHits(inv, words[w])
  {
    assert words[..w + 1][..w] == words[..w];
  }

  function Occurrences(hits: seq<Posting>): (r: seq<Occurrence>)
    ensures |r| == |hits| && forall i :: 0 <= i < |hits| ==> r[i] == hits[i].occ
  {
    seq(|hits|, i requires 0 <= i < |hits| => hits[i].occ)
  }

  /** The stems of `hits` that were found in document `d`. */
  function TermsFor(hits: seq<Posting>, d: string): set<string> {
    set p | p in hits && p.occ.docId == d :: p.term
  }

  lemma OccurrencesSnoc(hits: seq<Posting>, p: Posting)
    ensures Occurrences(hits + [p]) == Occurrences(hits) + [p.occ]
  {
  }

  /** Collection does the same grouping as the single-term path, over all
      visited occurrences. */
  lemma {:induction false} CollectGroups(hits: seq<Posting>)
    ensures Collect(hits).order == Group(Occurrences(hits)).order
    ensures Collect(hits).byDoc.Keys == Group(Occurrences(hits)).byDoc.Keys
    ensures forall d :: d in Collect(hits).byDoc ==> Collect(hits).byDoc[d].occurrences == Group(Occurrences(hits)).byDoc[d]
    decreases |hits|
  {
    if hits != [] {
      var init, p := hits[..|hits| - 1], hits[|hits| - 1];
      assert hits == init + [p];
      CollectGroups(init);
      OccurrencesSnoc(init, p);
      assert Occurrences(hits)[..|hits| - 1] == Occurrences(init);
    }
  }

  /** The documents collected are those of the visited occurrences. */
  lemma {:induction false} CollectKeys(hits: seq<Posting>)
    ensures Collect(hits).byDoc.Keys == Docs(Occurrences(hits))
    decreases |hits|
  {
    if hits != [] {
      var init, p := hits[..|hits| - 1], hits[|hits| - 1];
      assert hits == init + [p];
      CollectKeys(init);
      OccurrencesSnoc(init, p);
      DocsSnoc(Occurrences(init), p.occ);
    }
  }

  /** A document not among the visited occurrences matched no term. */
  lemma TermsForAbsent(hits: seq<Posting>, d: string)
    requires d !in Docs(Occurrences(hits))
    ensures TermsFor(hits, d) == {}
  {
    forall q | q in hits ensures q.occ.docId != d {
      var i :| 0 <= i < |hits| && hits[i] == q;
      assert Occurrences(hits)[i] == q.occ;
      assert q.occ in Occurrences(hits);
    }
  }

  /** `word_count` of each document is the set of query stems found in it. */
  lemma {:induction false} CollectTerms(hits: seq<Posting>)
    ensures forall d :: d in Collect(hits).byDoc ==> Collect(hits).byDoc[d].wordCount == TermsFor(hits, d)
    decreases |hits|
  {
    if hits != [] {
      var init, p := hits[..|hits| - 1], hits[|hits| - 1];
      assert hits == init + [p];
      CollectTerms(init);
      CollectKeys(init);
      forall d | d in Collect(hits).byDoc ensures Collect(hits).byDoc[d].wordCount == TermsFor(hits, d) {
        assert TermsFor(hits, d) == TermsFor(init, d) + (if p.occ.docId == d then {p.term} else {});
        if d !in Collect(init).byDoc {
          TermsForAbsent(init, d);
        }
      }
    }
  }

  /** A posting is visited iff its term is a query word that is a key of the
      index and its occurrence is in that key's list. */
  lemma {:induction false} QueryHitsMember(inv: InvertedIndex, words: seq<string>, p: Posting)
    ensures p in QueryHits(inv, words) <==> p.term in words && p.term in inv && p.occ in inv[p.term]
    decreases |words|
  {
    if words != [] {
      var init, w := words[..|words| - 1], words[|words| - 1];
      QueryHitsMember(inv, init, p);
      assert words == init + [w];
      var wh := WordHits(inv, w);
      if p in wh {
        var i :| 0 <= i < |wh| && wh[i] == p;
      }
      if p.term == w && w in inv && p.occ in inv[w] {
        var i :| 0 <= i < |inv[w]| && inv[w][i] == p.occ;
        assert wh[i] == p;
      }
    }
  }

  /** The query words that are keys of the index and have an occurrence in `d`. */
  function MatchedTerms(inv: InvertedIndex, words: seq<string>, d: string): set<string> {
    set w | w in words && w in inv && (exists o :: o in inv[w] && o.docId == d)
  }

  lemma MatchedTermsAreTermsFor(inv: InvertedIndex, words: seq<string>, d: string)
    ensures TermsFor(QueryHits(inv, words), d) == MatchedTerms(inv, words, d)
  {
    var hits := QueryHits(inv, words);
    forall w | w in TermsFor(hits, d) ensures w in MatchedTerms(inv, words, d) {
      var p :| p in hits && p.occ.docId == d && p.term == w;
      QueryHitsMember(inv, words, p);
    }
    forall w | w in MatchedTerms(inv, words, d) ensures w in TermsFor(hits, d) {
      var o :| o in inv[w] && o.docId == d;
      QueryHitsMember(inv, words, Posting(w, o));
    }
  }

  /** The filter of app.py:118-121 over the first `k` documents of `m`. */
  function CompleteUpTo(m: Matches, n: nat, k: nat): Groups
    requires k <= |m.order|
  {
    if k == 0 then Groups([], map[])
    else
      var g := CompleteUpTo(m, n, k - 1);
      var d := m.order[k - 1];
      if d in m.byDoc && |m.byDoc[d].wordCount| == n then Groups(g.order + [d], g.byDoc[d := m.byDoc[d].occurrences])
      else g
  }

  /** `results`: the documents whose `len(word_count)` equals `n`. */
  function Complete(m: Matches, n: nat): Groups {
    CompleteUpTo(m, n, |m.order|)
  }

  /** The filter keeps exactly the documents that matched `n` distinct
      words, each with all its collected occurrences. */
  lemma {:induction false} CompleteUpToMembers(m: Matches, n: nat, k: nat)
    requires k <= |m.order|
    ensures forall d :: d in CompleteUpTo(m, n, k).byDoc ==> d in CompleteUpTo(m, n, k).order
    ensures forall i :: 0 <= i < |CompleteUpTo(m, n, k).order| ==> CompleteUpTo(m, n, k).order[i] in CompleteUpTo(m, n, k).byDoc
    ensures forall d :: d in CompleteUpTo(m, n, k).byDoc <==>
      d in m.order[..k] && d in m.byDoc && |m.byDoc[d].wordCount| == n
    ensures forall d :: d in CompleteUpTo(m, n, k).byDoc ==> CompleteUpTo(m, n, k).byDoc[d] == m.byDoc[d].occurrences
  {
    if k > 0 {
      CompleteUpToMembers(m, n, k - 1);
      assert m.order[..k] == m.order[..k - 1] + [m.order[k - 1]];
    }
  }

  /** The filter keeps the documents in their collected order: when that
      order is strictly increasing in `key`, so is the filtered one. */
  lemma {:induction false} CompleteUpToOrder(m: Matches, n: nat, k: nat, key: string -> nat)
    requires k <= |m.order|
    requires forall i, j :: 0 <= i < j < |m.order| ==> key(m.order[i]) < key(m.order[j])
    ensures forall i, j :: 0 <= i < j < |CompleteUpTo(m, n, k).order| ==>
      key(CompleteUpTo(m, n, k).order[i]) < key(CompleteUpTo(m, n, k).order[j])
    ensures forall i, j :: 0 <= i < |CompleteUpTo(m, n, k).order| && k <= j < |m.order| ==>
      key(CompleteUpTo(m, n, k).order[i]) < key(m.order[j])
  {
    if k > 0 {
      CompleteUpToOrder(m, n, k - 1, key);
      var g := CompleteUpTo(m, n, k - 1);
      var order := CompleteUpTo(m, n, k).order;
      var d := m.order[k - 1];
      if order != g.order {
        assert order == g.order + [d];
        forall i, j | 0 <= i < j < |order| ensures key(order[i]) < key(order[j]) {
          assert order[i] == g.order[i];
          if j < |g.order| {
            assert order[j] == g.order[j];
          }
        }
        forall i, j | 0 <= i < |order| && k <= j < |m.order| ensures key(order[i]) < key(m.order[j]) {
          if i < |g.order| {
            assert order[i] == g.order[i];
          }
        }
      }
    }
  }

  // ---------------------------------------------------------------------------
  // Formatting one document's entry

  /** `unique_lines`: for each line number, the text of the first occurrence
      seen on that line (app.py:127-131). */
  function FirstSeen(occs: seq<Occurrence>): map<nat, string>
    decreases |occs|
  {
    if occs == [] then map[]
    else
      var m := FirstSeen(occs[..|occs| - 1]);
      var o := occs[|occs| - 1];
      if o.line in m then m else m[o.line := o.originalLine]
  }

  /** The lines recorded are exactly the lines of the occurrences. */
  lemma {:induction false} FirstSeenKeys(occs: seq<Occurrence>)
    ensures forall k :: k in FirstSeen(occs) <==> exists i :: 0 <= i < |occs| && occs[i].line == k
    decreases |occs|
  {
    if occs != [] {
      var init := occs[..|occs| - 1];
      FirstSeenKeys(init);
      forall k ensures k in FirstSeen(occs) <==> exists i :: 0 <= i < |occs| && occs[i].line == k {
        if k in FirstSeen(init) {
          var i :| 0 <= i < |init| && init[i].line == k;
          assert occs[i] == init[i];
        }
        if exists i :: 0 <= i < |occs| && occs[i].line == k {
          var i :| 0 <= i < |occs| && occs[i].line == k;
          if i < |init| {
            assert init[i] == occs[i];
          }
        }
      }
    }
  }

  /** Each line keeps the text of the first occurrence met on it. */
  lemma {:induction false} FirstSeenValues(occs: seq<Occurrence>)
    ensures forall i :: 0 <= i < |occs| && (forall j :: 0 <= j < i ==> occs[j].line != occs[i].line) ==>
      occs[i].line in FirstSeen(occs) && FirstSeen(occs)[occs[i].line] == occs[i].originalLine
    decreases |occs|
  {
    if occs != [] {
      var init, o := occs[..|occs| - 1], occs[|occs| - 1];
      FirstSeenValues(init);
      FirstSeenKeys(init);
      forall i | 0 <= i < |occs| && (forall j :: 0 <= j < i ==> occs[j].line != occs[i].line)
        ensures occs[i].line in FirstSeen(occs) && FirstSeen(occs)[occs[i].line] == occs[i].originalLine
      {
        if i < |init| {
          assert init[i] == occs[i];
          assert forall j :: 0 <= j < i ==> init[j].line != init[i].line by {
            forall j | 0 <= j < i ensures init[j].line != init[i].line {
              assert init[j] == occs[j];
            }
          }
        } else {
          assert o == occs[i];
        }
      }
    }
  }

  /** One more than the largest line number in `occs`. */
  function LineBound(occs: seq<Occurrence>): (r: nat)
    ensures forall i :: 0 <= i < |occs| ==> occs[i].line < r
  {
    if occs == [] then 0
    else
      var b := LineBound(occs[1..]);
      assert forall i :: 1 <= i < |occs| ==> occs[i] == occs[1..][i - 1];
      if occs[0].line + 1 > b then occs[0].line + 1 else b
  }

  /** The items of `m` with keys in `[lo, hi)`, by ascending key: what
      `sorted(unique_lines.items())` yields when every key is below `hi`. */
  function SortedItems(m: map<nat, string>, lo: nat, hi: nat): seq<LineHit>
    decreases hi - lo
  {
    if lo >= hi then []
    else (if lo in m then [LineHit(lo, m[lo])] else []) + SortedItems(m, lo + 1, hi)
  }

  predicate StrictlyAscending(hs: seq<LineHit>) {
    forall i, j :: 0 <= i < j < |hs| ==> hs[i].lineNum < hs[j].lineNum
  }

  /** Every item listed is an item of `m` with a key in range. */
  lemma {:induction false} SortedItemsSound(m: map<nat, string>, lo: nat, hi: nat)
    ensures forall i :: 0 <= i < |SortedItems(m, lo, hi)| ==>
      lo <= SortedItems(m, lo, hi)[i].lineNum < hi && SortedItems(m, lo, hi)[i].lineNum in m &&
      SortedItems(m, lo, hi)[i].content == m[SortedItems(m, lo, hi)[i].lineNum]
    decreases hi - lo
  {
    if lo < hi {
      SortedItemsSound(m, lo + 1, hi);
      var rest := SortedItems(m, lo + 1, hi);
      if lo in m {
        assert forall i :: 1 <= i < |rest| + 1 ==> SortedItems(m, lo, hi)[i] == rest[i - 1];
      }
    }
  }

  /** The items come by strictly ascending key. */
  lemma {:induction false} SortedItemsAscending(m: map<nat, string>, lo: nat, hi: nat)
    ensures StrictlyAscending(SortedItems(m, lo, hi))
    decreases hi - lo
  {
    if lo < hi {
      SortedItemsAscending(m, lo + 1, hi);
      SortedItemsSound(m, lo + 1, hi);
      var rest := SortedItems(m, lo + 1, hi);
      if lo in m {
        var all := SortedItems(m, lo, hi);
        assert forall i :: 1 <= i < |all| ==> all[i] == rest[i - 1];
      }
    }
  }

  /** Some entry of `hs` is for line `k`. */
  predicate HasLine(hs: seq<LineHit>, k: nat) {
    exists i :: 0 <= i < |hs| && hs[i].lineNum == k
  }

  /** Every key of `m` in range is listed. */
  lemma {:induction false} SortedItemsComplete(m: map<nat, string>, lo: nat, hi: nat)
    ensures forall k: nat :: lo <= k < hi && k in m ==> HasLine(SortedItems(m, lo, hi), k)
    decreases hi - lo
  {
    if lo < hi {
      SortedItemsComplete(m, lo + 1, hi);
      var rest := SortedItems(m, lo + 1, hi);
      var all := SortedItems(m, lo, hi);
      var head: seq<LineHit> := if lo in m then [LineHit(lo, m[lo])] else [];
      assert all == head + rest;
      forall k: nat | lo <= k < hi && k in m ensures HasLine(all, k) {
        if k == lo {
          assert all[0].lineNum == k;
        } else {
          var i :| 0 <= i < |rest| && rest[i].lineNum == k;
          assert all[i + |head|] == rest[i];
        }
      }
    }
  }

  /** `sorted(unique_lines.items())[:20]` as `{line_num, content}` records. */
  function ResultLines(occs: seq<Occurrence>): seq<LineHit> {
    Take(SortedItems(FirstSeen(occs), 0, LineBound(occs)), MAX_RESULT_LINES)
  }

  function FormatDoc(d: string, occs: seq<Occurrence>, store: map<string, DocMeta>): SearchResult {
    SearchResult(
      if d in store then store[d].name else d,
      d,
      |occs|,
      if d in store then store[d].lines else 0,
      ResultLines(occs))
  }

  /** At most 20 distinct lines in ascending order, each a line of some
      occurrence and carrying the text of the first occurrence met on it. */
  lemma ResultLinesSound(occs: seq<Occurrence>)
    ensures |ResultLines(occs)| <= MAX_RESULT_LINES
    ensures StrictlyAscending(ResultLines(occs))
    ensures forall p :: 0 <= p < |ResultLines(occs)| ==>
      exists i :: (0 <= i < |occs| && occs[i].line == ResultLines(occs)[p].lineNum &&
        ResultLines(occs)[p].content == occs[i].originalLine &&
        forall j :: 0 <= j < i ==> occs[j].line != ResultLines(occs)[p].lineNum)
  {
    var unique := FirstSeen(occs);
    var all := SortedItems(unique, 0, LineBound(occs));
    var lines := ResultLines(occs);
    FirstSeenKeys(occs);
    FirstSeenValues(occs);
    SortedItemsSound(unique, 0, LineBound(occs));
    SortedItemsAscending(unique, 0, LineBound(occs));
    forall p | 0 <= p < |lines|
      ensures exists i :: (0 <= i < |occs| && occs[i].line == lines[p].lineNum && lines[p].content == occs[i].originalLine &&
        forall j :: 0 <= j < i ==> occs[j].line != lines[p].lineNum)
    {
      var h := lines[p];
      assert all[p] == h && h.lineNum in unique && h.content == unique[h.lineNum];
      var i := FirstLine(occs, h.lineNum);
      assert unique[h.lineNum] == occs[i].originalLine;
    }
  }

  /** The reported lines are the smallest line numbers among the occurrences:
      a line with an occurrence is missing only when 20 lower ones are shown. */
  lemma ResultLinesComplete(occs: seq<Occurrence>)
    ensures forall i :: 0 <= i < |occs| ==>
      HasLine(ResultLines(occs), occs[i].line) ||
      (|ResultLines(occs)| == MAX_RESULT_LINES && ResultLines(occs)[MAX_RESULT_LINES - 1].lineNum < occs[i].line)
  {
    var unique := FirstSeen(occs);
    var all := SortedItems(unique, 0, LineBound(occs));
    var lines := ResultLines(occs);
    FirstSeenKeys(occs);
    SortedItemsComplete(unique, 0, LineBound(occs));
    SortedItemsAscending(unique, 0, LineBound(occs));
    forall i | 0 <= i < |occs|
      ensures HasLine(lines, occs[i].line) ||
        (|lines| == MAX_RESULT_LINES && lines[MAX_RESULT_LINES - 1].lineNum < occs[i].line)
    {
      assert occs[i].line in unique;
      var p :| 0 <= p < |all| && all[p].lineNum == occs[i].line;
      if p < |lines| {
        assert lines[p] == all[p];
      } else {
        assert all[MAX_RESULT_LINES - 1] == lines[MAX_RESULT_LINES - 1];
      }
    }
  }

  /** The first index whose occurrence is on line `k`, given that one is. */
  lemma {:induction false} FirstLine(occs: seq<Occurrence>, k: nat) returns (i: nat)
    requires exists j :: 0 <= j < |occs| && occs[j].line == k
    ensures i < |occs| && occs[i].line == k
    ensures forall j :: 0 <= j < i ==> occs[j].line != k
    decreases |occs|
  {
    if occs[0].line == k {
      i := 0;
    } else {
      var j :| 0 <= j < |occs| && occs[j].line == k;
      assert occs[1..][j - 1] == occs[j];
      var i' := FirstLine(occs[1..], k);
      i := i' + 1;
      assert forall j :: 1 <= j < i ==> occs[j] == occs[1..][j - 1];
    }
  }

  /** The entries for the documents of `g`, in its key order
      (the loop of app.py:125-140). */
  function FormatAll(g: Groups, store: map<string, DocMeta>, k: nat): (r: seq<SearchResult>)
    requires k <= |g.order|
    ensures |r| == k
    ensures forall i :: 0 <= i < k ==> r[i] == FormatDoc(g.order[i], Lookup(g.byDoc, g.order[i]), store)
  {
    if k == 0 then [] else FormatAll(g, store, k - 1) + [FormatDoc(g.order[k - 1], Lookup(g.byDoc, g.order[k - 1]), store)]
  }

  // ---------------------------------------------------------------------------
  // The stable sort by descending match count (app.py:143)

  /** Insert `r` before the first entry with no more matches than it has. */
  function InsertByMatches(r: SearchResult, s: seq<SearchResult>): seq<SearchResult> {
    if s == [] || r.matches >= s[0].matches then [r] + s else [s[0]] + InsertByMatches(r, s[1..])
  }

  /** `sort(key=lambda x: x['matches'], reverse=True)`: Python's sort is
      stable, and so is this insertion sort. */
  function SortByMatches(s: seq<SearchResult>): seq<SearchResult> {
    if s == [] then [] else InsertByMatches(s[0], SortByMatches(s[1..]))
  }

  predicate NonIncreasingMatches(s: seq<SearchResult>) {
    forall i, j :: 0 <= i < j < |s| ==> s[i].matches >= s[j].matches
  }

  /** Where `InsertByMatches(r, s)` puts `r`. */
  function InsertPosition(r: SearchResult, s: seq<SearchResult>): (p: nat)
    ensures p <= |s|
  {
    if s == [] || r.matches >= s[0].matches then 0 else 1 + InsertPosition(r, s[1..])
  }

  /** Insertion splices `r` in after exactly the entries with more matches
      that precede the first one with no more. */
  lemma {:induction false} InsertByMatchesShape(r: SearchResult, s: seq<SearchResult>)
    ensures |InsertByMatches(r, s)| == |s| + 1
    ensures InsertByMatches(r, s)[InsertPosition(r, s)] == r
    ensures forall i :: 0 <= i < InsertPosition(r, s) ==> InsertByMatches(r, s)[i] == s[i] && s[i].matches > r.matches
    ensures forall i :: InsertPosition(r, s) < i <= |s| ==> InsertByMatches(r, s)[i] == s[i - 1]
    ensures InsertPosition(r, s) < |s| ==> s[InsertPosition(r, s)].matches <= r.matches
  {
    if !(s == [] || r.matches >= s[0].matches) {
      InsertByMatchesShape(r, s[1..]);
      var out := InsertByMatches(r, s);
      var p := InsertPosition(r, s[1..]);
      assert out == [s[0]] + InsertByMatches(r, s[1..]);
      forall i | 1 <= i < p + 1 ensures out[i] == s[i] && s[i].matches > r.matches {
        assert s[i] == s[1..][i - 1];
      }
      forall i | p + 1 < i <= |s| ensures out[i] == s[i - 1] {
        assert s[i - 1] == s[1..][i - 2];
      }
    }
  }

  /** Insertion adds `r` and nothing else. */
  lemma {:induction false} InsertByMatchesPermutes(r: SearchResult, s: seq<SearchResult>)
    ensures multiset(InsertByMatches(r, s)) == multiset(s) + multiset{r}
  {
    if !(s == [] || r.matches >= s[0].matches) {
      InsertByMatchesPermutes(r, s[1..]);
      assert s == [s[0]] + s[1..];
    }
  }

  /** The sort orders by non-increasing match count. */
  lemma {:induction false} SortByMatchesOrdered(s: seq<SearchResult>)
    ensures NonIncreasingMatches(SortByMatches(s))
  {
    if s != [] {
      var rest := SortByMatches(s[1..]);
      SortByMatchesOrdered(s[1..]);
      InsertByMatchesShape(s[0], rest);
      var p := InsertPosition(s[0], rest);
      var out := SortByMatches(s);
      forall i, j | 0 <= i < j < |out| ensures out[i].matches >= out[j].matches {
        if i == p {
          assert rest[p].matches <= s[0].matches;
        } else if j == p {
        } else if i < p < j {
          assert rest[j - 1].matches <= rest[p].matches || p == j - 1;
        }
      }
    }
  }

  /** The sort loses and adds nothing. */
  lemma {:induction false} SortByMatchesPermutes(s: seq<SearchResult>)
    ensures multiset(SortByMatches(s)) == multiset(s)
  {
    if s != [] {
      SortByMatchesPermutes(s[1..]);
      InsertByMatchesPermutes(s[0], SortByMatches(s[1..]));
      assert s == [s[0]] + s[1..];
    }
  }

  /** Where in the input the `k`-th sorted entry comes from. */
  lemma SortedFrom(s: seq<SearchResult>, k: nat) returns (q: nat)
    requires k < |SortByMatches(s)|
    ensures q < |s| && s[q] == SortByMatches(s)[k]
  {
    SortByMatchesPermutes(s);
    assert SortByMatches(s)[k] in multiset(s);
    q :| q < |s| && s[q] == SortByMatches(s)[k];
  }

  /** Equal-count entries keep their input order: when the input is ordered
      by `key`, so are the entries of each match count in the output. */
  lemma {:induction false} SortByMatchesStable(s: seq<SearchResult>, key: string -> nat)
    requires forall i, j :: 0 <= i < j < |s| ==> key(s[i].docId) < key(s[j].docId)
    ensures forall i, j :: 0 <= i < j < |SortByMatches(s)| && SortByMatches(s)[i].matches == SortByMatches(s)[j].matches ==>
      key(SortByMatches(s)[i].docId) < key(SortByMatches(s)[j].docId)
  {
    if s != [] {
      var rest := SortByMatches(s[1..]);
      SortByMatchesStable(s[1..], key);
      InsertByMatchesShape(s[0], rest);
      var p := InsertPosition(s[0], rest);
      var out := SortByMatches(s);
      forall k | 0 <= k < |rest| ensures key(s[0].docId) < key(rest[k].docId) {
        var q := SortedFrom(s[1..], k);
        assert s[q + 1] == rest[k];
      }
      forall i, j | 0 <= i < j < |out| && out[i].matches == out[j].matches ensures key(out[i].docId) < key(out[j].docId) {
        if j < p {
          assert out[i] == rest[i] && out[j] == rest[j];
        } else if j == p {
        } else if i < p {
          assert out[i] == rest[i] && out[j] == rest[j - 1];
        } else if i == p {
          assert out[j] == rest[j - 1];
        } else {
          assert out[i] == rest[i - 1] && out[j] == rest[j - 1];
        }
      }
    }
  }

  /** Format every document of `g`, then sort. */
  function Rank(g: Groups, store: map<string, DocMeta>): seq<SearchResult> {
    SortByMatches(FormatAll(g, store, |g.order|))
  }

  /** What `search_documents` returns once the query has been reduced to
      the stems `words`, for the index `inv` and the metadata table `store`. */
  function SearchTerms(inv: InvertedIndex, store: map<string, DocMeta>, words: seq<string>): seq<SearchResult> {
    if words == [] then []
    else if |words| == 1 then
      if words[0] !in inv then [] else Rank(Group(inv[words[0]]), store)
    else
      Rank(Complete(Collect(QueryHits(inv, words)), |words|), store)
  }

  /** What `search_documents(query)` returns. */
  function SearchSpec(inv: InvertedIndex, store: map<string, DocMeta>, query: string): seq<SearchResult> {
    SearchTerms(inv, store, QueryTerms(query))
  }

  /** Some entry of `r` is for document `d`. */
  predicate HasDoc(r: seq<SearchResult>, d: string) {
    exists i :: 0 <= i < |r| && r[i].docId == d
  }

  /** The documents that `r` has entries for. */
  function ResultDocs(r: seq<SearchResult>): set<string> {
    set i | 0 <= i < |r| :: r[i].docId
  }

  /** Entries for pairwise distinct documents are as many as the documents. */
  lemma {:induction false} ResultDocsCard(r: seq<SearchResult>)
    requires forall i, j :: 0 <= i < j < |r| ==> r[i].docId != r[j].docId
    ensures |ResultDocs(r)| == |r|
  {
    if r != [] {
      var rest := r[1..];
      assert forall i, j :: 0 <= i < j < |rest| ==> rest[i].docId != rest[j].docId by {
        assert forall i :: 0 <= i < |rest| ==> rest[i] == r[i + 1];
      }
      ResultDocsCard(rest);
      assert ResultDocs(r) == {r[0].docId} + ResultDocs(rest) by {
        forall x | x in ResultDocs(r) ensures x in {r[0].docId} + ResultDocs(rest) {
          var i :| 0 <= i < |r| && r[i].docId == x;
          if i > 0 {
            assert rest[i - 1] == r[i];
          }
        }
        forall x | x in ResultDocs(rest) ensures x in ResultDocs(r) {
          var i :| 0 <= i < |rest| && rest[i].docId == x;
          assert r[i + 1] == rest[i];
        }
      }
      forall x | x in ResultDocs(rest) ensures x != r[0].docId {
        var i :| 0 <= i < |rest| && rest[i].docId == x;
        assert r[i + 1] == rest[i];
      }
    }
  }

  /** One entry per chosen document means exactly `|chosen|` entries. */
  lemma ResultCount(r: seq<SearchResult>, chosen: set<string>)
    requires forall i :: 0 <= i < |r| ==> r[i].docId in chosen
    requires forall d :: d in chosen ==> HasDoc(r, d)
    requires forall i, j :: 0 <= i < j < |r| ==> r[i].docId != r[j].docId
    ensures |r| == |chosen|
  {
    ResultDocsCard(r);
    assert ResultDocs(r) == chosen by {
      forall d | d in chosen ensures d in ResultDocs(r) {
        var i :| 0 <= i < |r| && r[i].docId == d;
      }
    }
  }

  /** The formatted entries, before sorting, follow the key order of `g`. */
  lemma FormatAllOrder(g: Groups, store: map<string, DocMeta>)
    ensures forall i :: 0 <= i < |g.order| ==> FormatAll(g, store, |g.order|)[i].docId == g.order[i]
  {
  }

  /** Ranking lists every document of `g`, formatted from its occurrences,
      and nothing else. */
  lemma RankMembers(g: Groups, store: map<string, DocMeta>)
    requires forall d :: d in g.byDoc ==> d in g.order
    requires forall i :: 0 <= i < |g.order| ==> g.order[i] in g.byDoc
    ensures forall i :: 0 <= i < |Rank(g, store)| ==>
      Rank(g, store)[i].docId in g.byDoc && Rank(g, store)[i] == FormatDoc(Rank(g, store)[i].docId, g.byDoc[Rank(g, store)[i].docId], store)
    ensures forall d :: d in g.byDoc ==> HasDoc(Rank(g, store), d)
  {
    var f := FormatAll(g, store, |g.order|);
    var r := Rank(g, store);
    SortByMatchesPermutes(f);
    forall i | 0 <= i < |r| ensures r[i].docId in g.byDoc && r[i] == FormatDoc(r[i].docId, g.byDoc[r[i].docId], store) {
      var q := SortedFrom(f, i);
      assert f[q] == FormatDoc(g.order[q], g.byDoc[g.order[q]], store);
    }
    forall d | d in g.byDoc ensures HasDoc(r, d) {
      var q :| 0 <= q < |g.order| && g.order[q] == d;
      assert f[q] in multiset(r);
      var i :| 0 <= i < |r| && r[i] == f[q];
      assert r[i].docId == d;
    }
  }

  /** Ranking orders by non-increasing match count; entries with equal
      counts keep the order of `g`, given as increasing `key`. */
  lemma RankOrder(g: Groups, store: map<string, DocMeta>, key: string -> nat)
    requires forall i, j :: 0 <= i < j < |g.order| ==> key(g.order[i]) < key(g.order[j])
    ensures NonIncreasingMatches(Rank(g, store))
    ensures forall i, j :: 0 <= i < j < |Rank(g, store)| && Rank(g, store)[i].matches == Rank(g, store)[j].matches ==>
      key(Rank(g, store)[i].docId) < key(Rank(g, store)[j].docId)
  {
    var f := FormatAll(g, store, |g.order|);
    FormatAllOrder(g, store);
    SortByMatchesOrdered(f);
    SortByMatchesStable(f, key);
  }

  /** Ranking lists each document once. */
  lemma RankDistinct(g: Groups, store: map<string, DocMeta>, key: string -> nat)
    requires forall d :: d in g.byDoc ==> d in g.order
    requires forall i :: 0 <= i < |g.order| ==> g.order[i] in g.byDoc
    requires forall i, j :: 0 <= i < j < |g.order| ==> key(g.order[i]) < key(g.order[j])
    ensures forall i, j :: 0 <= i < j < |Rank(g, store)| ==> Rank(g, store)[i].docId != Rank(g, store)[j].docId
  {
    var r := Rank(g, store);
    RankMembers(g, store);
    RankOrder(g, store, key);
    assert forall i, j :: 0 <= i < j < |r| ==> r[i].docId != r[j].docId;
  }

  /** Ranking lists every document of `g` exactly once, formatted from its
      occurrences, by non-increasing match count; entries with equal counts
      keep the order of `g`, given as increasing `key`. */
  lemma RankSpec(g: Groups, store: map<string, DocMeta>, key: string -> nat)
    requires forall d :: d in g.byDoc ==> d in g.order
    requires forall i :: 0 <= i < |g.order| ==> g.order[i] in g.byDoc
    requires forall i, j :: 0 <= i < j < |g.order| ==> key(g.order[i]) < key(g.order[j])
    ensures NonIncreasingMatches(Rank(g, store))
    ensures forall i :: 0 <= i < |Rank(g, store)| ==>
      Rank(g, store)[i].docId in g.byDoc && Rank(g, store)[i] == FormatDoc(Rank(g, store)[i].docId, g.byDoc[Rank(g, store)[i].docId], store)
    ensures forall d :: d in g.byDoc ==> HasDoc(Rank(g, store), d)
    ensures forall i, j :: 0 <= i < j < |Rank(g, store)| && Rank(g, store)[i].matches == Rank(g, store)[j].matches ==>
      key(Rank(g, store)[i].docId) < key(Rank(g, store)[j].docId)
    ensures forall i, j :: 0 <= i < j < |Rank(g, store)| ==> Rank(g, store)[i].docId != Rank(g, store)[j].docId
  {
    RankMembers(g, store);
    RankOrder(g, store, key);
    RankDistinct(g, store, key);
  }

  /** Document `d`'s position in the occurrence stream, as a ranking key. */
  function FirstIndexKey(occs: seq<Occurrence>): (key: string -> nat)
    ensures forall d :: key(d) == FirstIndex(occs, d)
  {
    d => FirstIndex(occs, d)
  }

  /** `r` is the answer over the occurrence stream `occs` restricted to the
      documents in `chosen`: one entry per chosen document, formatted from
      that document's occurrences (so `matches` is their number), ordered by
      non-increasing match count, ties in first-encounter order. */
  ghost predicate Ranked(r: seq<SearchResult>, occs: seq<Occurrence>, chosen: set<string>, store: map<string, DocMeta>) {
    (forall i :: 0 <= i < |r| ==> r[i].docId in chosen && r[i] == FormatDoc(r[i].docId, OfDoc(occs, r[i].docId), store)) &&
    (forall d :: d in chosen ==> HasDoc(r, d)) &&
    (forall i, j :: 0 <= i < j < |r| ==> r[i].docId != r[j].docId) &&
    |r| == |chosen| &&
    NonIncreasingMatches(r) &&
    (forall i, j :: 0 <= i < j < |r| && r[i].matches == r[j].matches ==> FirstIndex(occs, r[i].docId) < FirstIndex(occs, r[j].docId))
  }

  /** The single-term path: nothing when the stem is not indexed, otherwise
      exactly the documents with an occurrence of it. */
  lemma SingleTermSearch(inv: InvertedIndex, store: map<string, DocMeta>, t: string)
    ensures t !in inv ==> SearchTerms(inv, store, [t]) == []
    ensures t in inv ==> Ranked(SearchTerms(inv, store, [t]), inv[t], Docs(inv[t]), store)
  {
    if t in inv {
      var occs := inv[t];
      GroupWellFormed(occs);
      GroupKeys(occs);
      GroupContents(occs);
      GroupOrder(occs);
      RankSpec(Group(occs), store, FirstIndexKey(occs));
      ResultCount(SearchTerms(inv, store, [t]), Docs(occs));
    }
  }

  /** The documents the multi-term filter keeps: those where the number of
      distinct query stems found equals the number of query words. */
  function Qualifying(inv: InvertedIndex, words: seq<string>): set<string> {
    set d | d in Docs(Occurrences(QueryHits(inv, words))) && |MatchedTerms(inv, words, d)| == |words|
  }

  /** The multi-term path: the documents whose set of matched stems has as
      many elements as the query has words, formatted from all the
      occurrences collected for them. */
  lemma MultiTermSearch(inv: InvertedIndex, store: map<string, DocMeta>, words: seq<string>)
    requires |words| >= 2
    ensures Ranked(SearchTerms(inv, store, words), Occurrences(QueryHits(inv, words)), Qualifying(inv, words), store)
  {
    var n := |words|;
    var hits := QueryHits(inv, words);
    var occs := Occurrences(hits);
    var m := Collect(hits);
    var key := FirstIndexKey(occs);
    CollectGroups(hits);
    CollectTerms(hits);
    GroupWellFormed(occs);
    GroupKeys(occs);
    GroupContents(occs);
    GroupOrder(occs);
    CompleteUpToMembers(m, n, |m.order|);
    CompleteUpToOrder(m, n, |m.order|, key);
    assert m.order[..|m.order|] == m.order;
    forall d | d in m.byDoc ensures m.byDoc[d].wordCount == MatchedTerms(inv, words, d) {
      MatchedTermsAreTermsFor(inv, words, d);
    }
    RankSpec(Complete(m, n), store, key);
    ResultCount(SearchTerms(inv, store, words), Qualifying(inv, words));
  }

  /** Every occurrence the multi-word loop visits is filed in the index. */
  lemma QueryHitsRecorded(inv: InvertedIndex, docs: set<string>, words: seq<string>)
    requires WellFormedIndex(inv, docs)
    ensures Docs(Occurrences(QueryHits(inv, words))) <= docs
  {
    var hits := QueryHits(inv, words);
    forall d | d in Docs(Occurrences(hits)) ensures d in docs {
      var o :| o in Occurrences(hits) && o.docId == d;
      var i :| 0 <= i < |hits| && Occurrences(hits)[i] == o;
      QueryHitsMember(inv, words, hits[i]);
      assert Recorded(hits[i].occ, docs);
    }
  }

  /** On a well-formed index every result names a document of the store, so
      `document` and `total_lines` are that document's name and line count:
      the fallbacks `doc_id` and 0 of `document_store.get(doc_id, {})` never
      apply. */
  lemma SearchUsesStore(inv: InvertedIndex, store: map<string, DocMeta>, words: seq<string>)
    requires WellFormedIndex(inv, store.Keys)
    ensures forall i :: 0 <= i < |SearchTerms(inv, store, words)| ==>
      SearchTerms(inv, store, words)[i].docId in store &&
      SearchTerms(inv, store, words)[i].document == store[SearchTerms(inv, store, words)[i].docId].name &&
      SearchTerms(inv, store, words)[i].totalLines == store[SearchTerms(inv, store, words)[i].docId].lines
  {
    if |words| == 1 {
      var t := words[0];
      assert words == [t];
      SingleTermSearch(inv, store, t);
      if t in inv {
        forall d | d in Docs(inv[t]) ensures d in store {
          var o :| o in inv[t] && o.docId == d;
          assert Recorded(o, store.Keys);
        }
      }
    } else if |words| >= 2 {
      MultiTermSearch(inv, store, words);
      QueryHitsRecorded(inv, store.Keys, words);
    }
  }

  lemma {:induction false} SeqSetCard(s: seq<string>)
    ensures |set x | x in s| <= |s|
    ensures |set x | x in s| == |s| <==> Distinct(s)
  {
    if s != [] {
      SeqSetCard(s[1..]);
      var rest := set x | x in s[1..];
      assert (set x | x in s) == {s[0]} + rest;
      if s[0] in rest {
        assert (set x | x in s) == rest;
        var j :| 0 <= j < |s[1..]| && s[1..][j] == s[0];
        assert s[j + 1] == s[0];
      } else {
        assert Distinct(s) <==> Distinct(s[1..]) by {
          if Distinct(s[1..]) {
            forall i, j | 0 <= i < j < |s| ensures s[i] != s[j] {
              if i == 0 {
                assert s[j] == s[1..][j - 1];
              } else {
                assert s[i] == s[1..][i - 1] && s[j] == s[1..][j - 1];
              }
            }
          }
          if Distinct(s) {
            forall i, j | 0 <= i < j < |s[1..]| ensures s[1..][i] != s[1..][j] {
              assert s[1..][i] == s[i + 1] && s[1..][j] == s[j + 1];
            }
          }
        }
      }
    }
  }

  lemma SubsetCard(a: set<string>, b: set<string>)
    requires a <= b
    ensures |a| <= |b|
  {
    assert b == a + (b - a);
    assert a * (b - a) == {};
  }

  lemma SubsetSameCard(a: set<string>, b: set<string>)
    requires a <= b && |a| == |b|
    ensures a == b
  {
    assert |b - a| == |b| - |a|;
  }

  /** Every query stem is indexed and has an occurrence in `d`. */
  predicate AllMatched(inv: InvertedIndex, words: seq<string>, d: string) {
    forall w :: w in words ==> w in inv && exists o :: o in inv[w] && o.docId == d
  }

  /** With distinct query stems, a document passes the filter iff every stem
      is indexed with an occurrence in it: the filter is a conjunction. */
  lemma MatchedAllIff(inv: InvertedIndex, words: seq<string>, d: string)
    requires Distinct(words)
    ensures |MatchedTerms(inv, words, d)| == |words| <==> AllMatched(inv, words, d)
  {
    var all := set x | x in words;
    var matched := MatchedTerms(inv, words, d);
    SeqSetCard(words);
    assert matched <= all;
    if |matched| == |words| {
      SubsetSameCard(matched, all);
      forall w | w in words ensures w in inv && exists o :: o in inv[w] && o.docId == d {
        assert w in all;
      }
    }
    if AllMatched(inv, words, d) {
      forall x | x in all ensures x in matched {
        assert x in words;
      }
      assert matched == all;
    }
  }

  /** Because the filter compares a set size with a list length, a query
      whose stems repeat matches no document at all. */
  lemma RepeatedTermNoResults(inv: InvertedIndex, store: map<string, DocMeta>, words: seq<string>)
    requires |words| >= 2 && !Distinct(words)
    ensures SearchTerms(inv, store, words) == []
  {
    MultiTermSearch(inv, store, words);
    SeqSetCard(words);
    assert Qualifying(inv, words) == {} by {
      forall d ensures d !in Qualifying(inv, words) {
        SubsetCard(MatchedTerms(inv, words, d), set x | x in words);
      }
    }
    RankedNone(SearchTerms(inv, store, words), Occurrences(QueryHits(inv, words)), Qualifying(inv, words), store);
  }

  /** An answer over no chosen documents is empty. */
  lemma RankedNone(r: seq<SearchResult>, occs: seq<Occurrence>, chosen: set<string>, store: map<string, DocMeta>)
    requires Ranked(r, occs, chosen, store) && chosen == {}
    ensures r == []
  {
  }

  /** With distinct stems, the multi-term path returns exactly the documents
      in which every stem occurs. */
  lemma MultiTermAnd(inv: InvertedIndex, store: map<string, DocMeta>, words: seq<string>, d: string)
    requires |words| >= 2 && Distinct(words)
    ensures HasDoc(SearchTerms(inv, store, words), d) <==> AllMatched(inv, words, d)
  {
    var r := SearchTerms(inv, store, words);
    var hits := QueryHits(inv, words);
    MultiTermSearch(inv, store, words);
    MatchedAllIff(inv, words, d);
    if AllMatched(inv, words, d) {
      var o :| o in inv[words[0]] && o.docId == d;
      QueryHitsMember(inv, words, Posting(words[0], o));
      var i :| 0 <= i < |hits| && hits[i] == Posting(words[0], o);
      assert Occurrences(hits)[i] == o;
      assert o in Occurrences(hits);
      assert d in Qualifying(inv, words);
    }
  }

  lemma {:induction false} QueryHitsEmptyIndex(words: seq<string>)
    ensures QueryHits(map[], words) == []
    decreases |words|
  {
    if words != [] {
      QueryHitsEmptyIndex(words[..|words| - 1]);
    }
  }

  /** An empty index answers every query with nothing. */
  lemma EmptyIndexSearch(store: map<string, DocMeta>, words: seq<string>)
    ensures SearchTerms(map[], store, words) == []
  {
    QueryHitsEmptyIndex(words);
  }
}
