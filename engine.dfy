/** The two global tables of app.py:17-18 and the operations that change or
    read them: `build_index` (app.py:56-84), `search_documents`
    (app.py:86-145), the counting part of `stats` (app.py:507-518) and
    `clear_index` (app.py:520-526). */
module Engine {
  import opened Text
  import opened Tokenizer
  import opened Stemmer
  import opened Postings
  import opened Ranking

  /** One element of the `documents` list of `stats`. */
  datatype DocSummary = DocSummary(name: string, size: nat, lines: nat)

  function Summary(m: DocMeta): (s: DocSummary)
    ensures s.name == m.name && s.size == m.size && s.lines == m.lines
  {
    DocSummary(m.name, m.size, m.lines)
  }

  /** The metadata record `build_index(_, content, docName)` writes. */
  function MetaFor(content: string, docName: string, indexedAt: real): (m: DocMeta)
    ensures m.name == docName && m.size == |content| && m.lines == CountChar(content, '\n') + 1
  {
    DocMeta(docName, |content|, |SplitLines(content)|, indexedAt)
  }

  /** A filed posting leaves its document under its term. */
  lemma FiledUnder(inv: InvertedIndex, ps: seq<Posting>, p: Posting)
    requires p in ps
    ensures p.term in InsertAll(inv, ps) && p.occ.docId in Docs(InsertAll(inv, ps)[p.term])
  {
    OccurrencesOfHas(ps, p);
    InsertAllAppends(inv, ps, p.term);
    InsertAllKeys(inv, ps);
    assert p.term in Terms(ps);
  }

  /** Once a document is indexed, a search for the stem of any of its
      tokens lists that document. */
  lemma IndexedTermFound(inv: InvertedIndex, store: map<string, DocMeta>, docId: string, content: string, line: nat, position: nat)
    requires 1 <= line <= |SplitLines(content)|
    requires Strip(SplitLines(content)[line - 1]) != []
    requires position < |Preprocess(SplitLines(content)[line - 1])|
    ensures HasDoc(SearchTerms(InsertAll(inv, DocEntries(docId, content)), store,
                               [Stem(Preprocess(SplitLines(content)[line - 1])[position])]), docId)
  {
    var p := DocEntryFor(docId, content, line, position);
    var inv' := InsertAll(inv, DocEntries(docId, content));
    FiledUnder(inv, DocEntries(docId, content), p);
    SingleTermSearch(inv', store, p.term);
  }

  /** The same for a query that is the token itself: searching for any word
      the tokenizer kept from a document lists that document. */
  lemma IndexedTokenFound(inv: InvertedIndex, store: map<string, DocMeta>, docId: string, content: string, line: nat, position: nat)
    requires 1 <= line <= |SplitLines(content)|
    requires Strip(SplitLines(content)[line - 1]) != []
    requires position < |Preprocess(SplitLines(content)[line - 1])|
    ensures HasDoc(SearchSpec(InsertAll(inv, DocEntries(docId, content)), store,
                              Preprocess(SplitLines(content)[line - 1])[position]), docId)
  {
    var w := Preprocess(SplitLines(content)[line - 1])[position];
    PreprocessToken(w);
    assert QueryTerms(w) == [Stem(w)];
    IndexedTermFound(inv, store, docId, content, line, position);
  }

  class Index {
    /** `inverted_index`: stem to occurrences, in append order. */
    var inverted: InvertedIndex
    /** `document_store`: doc_id to metadata. */
    var store: map<string, DocMeta>
    /** The insertion order of `document_store`'s keys. */
    var storeOrder: seq<string>

    /** `storeOrder` lists each key of `store` once. */
    ghost predicate OrderValid()
      reads this
    {
      Distinct(storeOrder) &&
      (forall d :: d in store ==> d in storeOrder) &&
      (forall i :: 0 <= i < |storeOrder| ==> storeOrder[i] in store)
    }

    ghost predicate Valid()
      reads this
    {
      WellFormedIndex(inverted, store.Keys) && OrderValid()
    }

    /** Both tables start empty. */
    constructor ()
      ensures Valid()
      ensures inverted == map[] && store == map[] && storeOrder == []
    {
      inverted := map[];
      store := map[];
      storeOrder := [];
    }

    /** `build_index(docId, content, docName)`, with the clock reading
        passed in as `indexedAt`. */
    method BuildIndex(docId: string, content: string, docName: string, indexedAt: real)
      requires Valid()
      modifies this
      ensures Valid()
      ensures store == old(store)[docId := MetaFor(content, docName, indexedAt)]
      ensures storeOrder == if docId in old(store) then old(storeOrder) else old(storeOrder) + [docId]
      ensures inverted == InsertAll(old(inverted), DocEntries(docId, content))
      ensures inverted.Keys == old(inverted).Keys + Terms(DocEntries(docId, content))
      ensures forall t :: Lookup(inverted, t) == Lookup(old(inverted), t) + OccurrencesOf(DocEntries(docId, content), t)
      ensures forall t :: t !in Terms(DocEntries(docId, content)) ==> Lookup(inverted, t) == Lookup(old(inverted), t)
    {
      var lines := SplitLines(content);
      Record(docId, MetaFor(content, docName, indexedAt));
      IndexLines(docId, lines);
      WellFormedGrows(old(inverted), old(store).Keys, store.Keys);
      InsertDocKeepsWellFormed(old(inverted), store.Keys, docId, content);
      InsertAllLookup(old(inverted), DocEntries(docId, content));
      InsertAllUntouched(old(inverted), DocEntries(docId, content));
    }

    /** `document_store[docId] = meta`: a new key goes to the end of the
        iteration order, an existing one keeps its place. */
    method Record(docId: string, meta: DocMeta)
      requires OrderValid()
      modifies this`store, this`storeOrder
      ensures OrderValid()
      ensures store == old(store)[docId := meta]
      ensures storeOrder == if docId in old(store) then old(storeOrder) else old(storeOrder) + [docId]
    {
      if docId !in store {
        storeOrder := storeOrder + [docId];
      }
      store := store[docId := meta];
    }

    /** The loop of app.py:68-84 over the lines of a document. */
    method IndexLines(docId: string, lines: seq<string>)
      modifies this`inverted
      ensures inverted == InsertAll(old(inverted), EntriesUpTo(docId, AnalyzeLines(lines), |lines|))
    {
      var k := 0;
      while k < |lines|
        invariant 0 <= k <= |lines|
        invariant inverted == InsertAll(old(inverted), EntriesUpTo(docId, AnalyzeLines(lines), k))
      {
        IndexLineAt(docId, k + 1, lines[k]);
        EntriesStep(old(inverted), docId, lines, k);
        k := k + 1;
      }
    }

    /** One turn of that loop for line number `lineNum`: skipped when blank,
        otherwise its tokens are filed. */
    method IndexLineAt(docId: string, lineNum: nat, line: string)
      modifies this`inverted
      ensures inverted == InsertAll(old(inverted), LineEntries(docId, lineNum, Analyze(line)))
    {
      var stripped := Strip(line);
      if stripped != [] {
        IndexLine(docId, lineNum, Preprocess(line), Take(stripped, MAX_LINE_CHARS));
      }
    }

    /** The inner loop of app.py:74-84: the tokens of one non-blank line
        stemmed and filed in order. */
    method IndexLine(docId: string, lineNum: nat, words: seq<string>, shown: string)
      modifies this`inverted
      ensures inverted == InsertAll(old(inverted), LineEntries(docId, lineNum, LineInfo(false, Stems(words), shown)))
    {
      ghost var here := LineEntries(docId, lineNum, LineInfo(false, Stems(words), shown));
      var position := 0;
      while position < |words|
        invariant 0 <= position <= |words|
        invariant inverted == InsertAll(old(inverted), here[..position])
      {
        var stemmed := Stem(words[position]);
        var occ := Occurrence(docId, lineNum, position, shown);
        assert here[position] == Posting(stemmed, occ);
        assert here[..position + 1][..position] == here[..position];
        inverted := inverted[stemmed := Lookup(inverted, stemmed) + [occ]];
        position := position + 1;
      }
      assert here[..|words|] == here;
    }

    /** `search_documents(query)`. */
    method Search(query: string) returns (results: seq<SearchResult>)
      ensures results == SearchSpec(inverted, store, query)
    {
      var words := QueryTerms(query);
      if words == [] {
        return [];
      }
      var groups: Groups;
      if |words| == 1 {
        var word := words[0];
        if word !in inverted {
          return [];
        }
        groups := GroupOccurrences(inverted[word]);
      } else {
        var m := CollectMatches(words);
        groups := KeepComplete(m, |words|);
      }
      var formatted := FormatResults(groups);
      results := SortResults(formatted);
    }

    /** The loop of app.py:102-105. */
    static method GroupOccurrences(occs: seq<Occurrence>) returns (g: Groups)
      ensures g == Group(occs)
    {
      var order: seq<string> := [];
      var byDoc: map<string, seq<Occurrence>> := map[];
      var i := 0;
      while i < |occs|
        invariant 0 <= i <= |occs|
        invariant Groups(order, byDoc) == Group(occs[..i])
      {
        var occ := occs[i];
        assert occs[..i + 1][..i] == occs[..i];
        if occ.docId in byDoc {
          byDoc := byDoc[occ.docId := byDoc[occ.docId] + [occ]];
        } else {
          order := order + [occ.docId];
          byDoc := byDoc[occ.docId := [occ]];
        }
        i := i + 1;
      }
      assert occs[..|occs|] == occs;
      g := Groups(order, byDoc);
    }

    /** The double loop of app.py:108-115. */
    method CollectMatches(words: seq<string>) returns (m: Matches)
      ensures m == Collect(QueryHits(inverted, words))
    {
      m := Matches([], map[]);
      var w := 0;
      while w < |words|
        invariant 0 <= w <= |words|
        invariant m == Collect(QueryHits(inverted, words[..w]))
      {
        var word := words[w];
        ghost var done := QueryHits(inverted, words[..w]);
        ghost var hits := WordHits(inverted, word);
        QueryHitsStep(inverted, words, w);
        if word in inverted {
          m := AddWordHits(m, done, hits, word, inverted[word]);
        } else {
          assert done + hits == done;
        }
        w := w + 1;
      }
      assert words[..|words|] == words;
    }

    /** The inner loop of app.py:112-115: one word's occurrences are added to
        the per-document matches, in list order. */
    static method AddWordHits(m0: Matches, ghost done: seq<Posting>, ghost hits: seq<Posting>, word: string, occs: seq<Occurrence>)
      returns (m: Matches)
      requires m0 == Collect(done)
      requires |hits| == |occs| && forall i :: 0 <= i < |occs| ==> hits[i] == Posting(word, occs[i])
      ensures m == Collect(done + hits)
    {
      m := m0;
      var i := 0;
      assert done + hits[..0] == done;
      while i < |occs|
        invariant 0 <= i <= |occs|
        invariant m == Collect(done + hits[..i])
      {
        var occ := occs[i];
        var d := occ.docId;
        assert (done + hits[..i + 1])[..|done + hits[..i]|] == done + hits[..i];
        if d in m.byDoc {
          m := Matches(m.order, m.byDoc[d := DocMatch(m.byDoc[d].occurrences + [occ], m.byDoc[d].wordCount + {word})]);
        } else {
          m := Matches(m.order + [d], m.byDoc[d := DocMatch([occ], {word})]);
        }
        i := i + 1;
      }
      assert hits[..|occs|] == hits;
    }

    /** The filter loop of app.py:118-121. */
    static method KeepComplete(m: Matches, n: nat) returns (g: Groups)
      ensures g == Complete(m, n)
    {
      var order: seq<string> := [];
      var byDoc: map<string, seq<Occurrence>> := map[];
      var k := 0;
      while k < |m.order|
        invariant 0 <= k <= |m.order|
        invariant Groups(order, byDoc) == CompleteUpTo(m, n, k)
      {
        var d := m.order[k];
        if d in m.byDoc && |m.byDoc[d].wordCount| == n {
          order := order + [d];
          byDoc := byDoc[d := m.byDoc[d].occurrences];
        }
        k := k + 1;
      }
      g := Groups(order, byDoc);
    }

    /** The loop of app.py:128-131. */
    static method UniqueLines(occs: seq<Occurrence>) returns (unique: map<nat, string>)
      ensures unique == FirstSeen(occs)
    {
      unique := map[];
      var j := 0;
      while j < |occs|
        invariant 0 <= j <= |occs|
        invariant unique == FirstSeen(occs[..j])
      {
        assert occs[..j + 1][..j] == occs[..j];
        if occs[j].line !in unique {
          unique := unique[occs[j].line := occs[j].originalLine];
        }
        j := j + 1;
      }
      assert occs[..|occs|] == occs;
    }

    /** The formatting loop of app.py:124-140. */
    method FormatResults(groups: Groups) returns (formatted: seq<SearchResult>)
      ensures formatted == FormatAll(groups, store, |groups.order|)
    {
      formatted := [];
      var k := 0;
      while k < |groups.order|
        invariant 0 <= k <= |groups.order|
        invariant formatted == FormatAll(groups, store, k)
      {
        var d := groups.order[k];
        var occs := Lookup(groups.byDoc, d);
        var unique := UniqueLines(occs);
        var name := if d in store then store[d].name else d;
        var totalLines := if d in store then store[d].lines else 0;
        var lines := Take(SortedItems(unique, 0, LineBound(occs)), MAX_RESULT_LINES);
        formatted := formatted + [SearchResult(name, d, |occs|, totalLines, lines)];
        k := k + 1;
      }
    }

    /** `formatted_results.sort(key=lambda x: x['matches'], reverse=True)`,
        as insertions from the back. */
    static method SortResults(formatted: seq<SearchResult>) returns (sorted: seq<SearchResult>)
      ensures sorted == SortByMatches(formatted)
    {
      sorted := [];
      var k := |formatted|;
      while k > 0
        invariant 0 <= k <= |formatted|
        invariant sorted == SortByMatches(formatted[k..])
      {
        assert formatted[k - 1..][1..] == formatted[k..];
        sorted := InsertByMatches(formatted[k - 1], sorted);
        k := k - 1;
      }
    }

    /** The counting part of `stats`. */
    method Stats() returns (totalDocuments: nat, totalUniqueWords: nat, documents: seq<DocSummary>)
      requires Valid()
      ensures totalDocuments == |store| && totalUniqueWords == |inverted|
      ensures |documents| == |storeOrder|
      ensures forall i :: 0 <= i < |documents| ==> documents[i] == Summary(store[storeOrder[i]])
      ensures totalDocuments == |documents|
    {
      totalDocuments := |store|;
      totalUniqueWords := |inverted|;
      documents := [];
      var i := 0;
      while i < |storeOrder|
        invariant 0 <= i <= |storeOrder|
        invariant |documents| == i
        invariant forall j :: 0 <= j < i ==> documents[j] == Summary(store[storeOrder[j]])
      {
        documents := documents + [Summary(store[storeOrder[i]])];
        i := i + 1;
      }
      StoreCount();
    }

    /** The store has one record per listed id. */
    lemma StoreCount()
      requires Valid()
      ensures |store| == |storeOrder|
    {
      SeqSetCard(storeOrder);
      assert store.Keys == set x | x in storeOrder;
    }

    /** Under `Valid()` every search result names a stored document, so its
        `document` and `total_lines` come from the store and the fallbacks of
        `document_store.get(doc_id, {})` never apply. */
    lemma SearchNamesStoredDocuments(query: string)
      requires Valid()
      ensures var r := SearchSpec(inverted, store, query);
        forall i :: 0 <= i < |r| ==>
          r[i].docId in store && r[i].document == store[r[i].docId].name && r[i].totalLines == store[r[i].docId].lines
    {
      SearchUsesStore(inverted, store, QueryTerms(query));
    }

    /** `clear_index`: both tables emptied, after which every search finds
        nothing. */
    method Clear()
      modifies this
      ensures Valid()
      ensures inverted == map[] && store == map[] && storeOrder == []
      ensures forall query :: SearchSpec(inverted, store, query) == []
    {
      inverted := map[];
      store := map[];
      storeOrder := [];
      forall query ensures SearchSpec(inverted, store, query) == [] {
        EmptyIndexSearch(store, QueryTerms(query));
      }
    }
  }
}
