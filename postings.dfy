/** The records of the inverted index and what `build_index` (app.py:56-84)
    adds to it, stated on values. */
module Postings {
  import opened Text
  import opened Tokenizer
  import opened Stemmer

  /** `original_line` keeps at most this many characters (app.py:83). */
  const MAX_LINE_CHARS: nat := 200

  /** One entry of a per-term list: `{doc_id, line, position, original_line}`. */
  datatype Occurrence = Occurrence(docId: string, line: nat, position: nat, originalLine: string)

  /** One `document_store` record; `indexedAt` is the `time.time()` value. */
  datatype DocMeta = DocMeta(name: string, size: nat, lines: nat, indexedAt: real)

  /** An occurrence together with the term (stem) it is filed under. */
  datatype Posting = Posting(term: string, occ: Occurrence)

  type InvertedIndex = map<string, seq<Occurrence>>

  /** Python's `s[:n]`. */
  function Take<T>(s: seq<T>, n: nat): (r: seq<T>)
    ensures |r| <= n && |r| <= |s| && r == s[..|r|]
    ensures |r| == if |s| <= n then |s| else n
  {
    if |s| <= n then s else s[..n]
  }

  /** `[simple_stem(w) for w in words]`. */
  function Stems(words: seq<string>): (r: seq<string>)
    ensures |r| == |words| && forall i :: 0 <= i < |words| ==> r[i] == Stem(words[i])
  {
    seq(|words|, i requires 0 <= i < |words| => Stem(words[i]))
  }

  /** What `build_index` computes from one line before it appends anything:
      whether `line.strip()` is empty, the stems of `preprocess_text(line)`,
      and `line.strip()[:200]`. */
  datatype LineInfo = LineInfo(blank: bool, terms: seq<string>, shown: string)

  function Analyze(line: string): (r: LineInfo)
    ensures |r.shown| <= MAX_LINE_CHARS
  {
    LineInfo(Strip(line) == [], Stems(Preprocess(line)), Take(Strip(line), MAX_LINE_CHARS))
  }

  function AnalyzeLines(lines: seq<string>): (r: seq<LineInfo>)
    ensures |r| == |lines| && forall i :: 0 <= i < |lines| ==> r[i] == Analyze(lines[i])
  {
    seq(|lines|, i requires 0 <= i < |lines| => Analyze(lines[i]))
  }

  /** The postings one line contributes: none for a blank line, otherwise one
      per token, with the token's position in the line's own token list. */
  function LineEntries(docId: string, lineNum: nat, info: LineInfo): (r: seq<Posting>)
    ensures |r| == if info.blank then 0 else |info.terms|
    ensures forall i :: 0 <= i < |r| ==> r[i] == Posting(info.terms[i], Occurrence(docId, lineNum, i, info.shown))
  {
    if info.blank then []
    else seq(|info.terms|, i requires 0 <= i < |info.terms| => Posting(info.terms[i], Occurrence(docId, lineNum, i, info.shown)))
  }

  /** The postings of the first `k` lines, in encounter order. */
  function EntriesUpTo(docId: string, infos: seq<LineInfo>, k: nat): seq<Posting>
    requires k <= |infos|
  {
    if k == 0 then [] else EntriesUpTo(docId, infos, k - 1) + LineEntries(docId, k, infos[k - 1])
  }

  /** Everything `build_index(docId, content, _)` appends, in the order it appends it. */
  function DocEntries(docId: string, content: string): seq<Posting> {
    var infos := AnalyzeLines(SplitLines(content));
    EntriesUpTo(docId, infos, |infos|)
  }

  /** A posting describes token `position` of the non-blank line number
      `line` (1-based). */
  predicate Describes(docId: string, infos: seq<LineInfo>, p: Posting) {
    var o := p.occ;
    o.docId == docId && 1 <= o.line <= |infos| && !infos[o.line - 1].blank &&
    o.position < |infos[o.line - 1].terms| && p.term == infos[o.line - 1].terms[o.position] &&
    o.originalLine == infos[o.line - 1].shown
  }

  /** Strict (line, position) order: the order tokens are met in. */
  predicate Before(a: Occurrence, b: Occurrence) {
    a.line < b.line || (a.line == b.line && a.position < b.position)
  }

  lemma {:induction false} EntriesSoundUpTo(docId: string, infos: seq<LineInfo>, k: nat)
    requires k <= |infos|
    ensures forall i :: 0 <= i < |EntriesUpTo(docId, infos, k)| ==>
      Describes(docId, infos, EntriesUpTo(docId, infos, k)[i]) && EntriesUpTo(docId, infos, k)[i].occ.line <= k
  {
    if k > 0 {
      EntriesSoundUpTo(docId, infos, k - 1);
      var prev := EntriesUpTo(docId, infos, k - 1);
      var here := LineEntries(docId, k, infos[k - 1]);
      forall i | 0 <= i < |prev + here|
        ensures Describes(docId, infos, (prev + here)[i]) && (prev + here)[i].occ.line <= k
      {
        if i >= |prev| {
          assert (prev + here)[i] == here[i - |prev|];
        }
      }
    }
  }

  lemma {:induction false} EntriesCompleteUpTo(docId: string, infos: seq<LineInfo>, k: nat, line: nat, position: nat)
    requires k <= |infos| && 1 <= line <= k
    requires !infos[line - 1].blank && position < |infos[line - 1].terms|
    ensures exists i :: (0 <= i < |EntriesUpTo(docId, infos, k)| &&
      EntriesUpTo(docId, infos, k)[i].occ.line == line && EntriesUpTo(docId, infos, k)[i].occ.position == position)
  {
    var prev := EntriesUpTo(docId, infos, k - 1);
    var here := LineEntries(docId, k, infos[k - 1]);
    assert EntriesUpTo(docId, infos, k) == prev + here;
    if line < k {
      EntriesCompleteUpTo(docId, infos, k - 1, line, position);
      var i :| 0 <= i < |prev| && prev[i].occ.line == line && prev[i].occ.position == position;
      assert (prev + here)[i] == prev[i];
    } else {
      assert (prev + here)[|prev| + position] == here[position];
    }
  }

  /** The posting filed for term `position` of line `line`. */
  lemma EntryForUpTo(docId: string, infos: seq<LineInfo>, line: nat, position: nat) returns (p: Posting)
    requires 1 <= line <= |infos| && !infos[line - 1].blank && position < |infos[line - 1].terms|
    ensures p in EntriesUpTo(docId, infos, |infos|)
    ensures p.occ.docId == docId && p.term == infos[line - 1].terms[position]
  {
    var ps := EntriesUpTo(docId, infos, |infos|);
    EntriesCompleteUpTo(docId, infos, |infos|, line, position);
    var i :| 0 <= i < |ps| && ps[i].occ.line == line && ps[i].occ.position == position;
    EntriesSoundUpTo(docId, infos, |infos|);
    p := ps[i];
    assert Describes(docId, infos, p);
  }

  /** The posting filed for token `position` of line `line`, under the
      stem of that token. */
  lemma DocEntryFor(docId: string, content: string, line: nat, position: nat) returns (p: Posting)
    requires 1 <= line <= |SplitLines(content)|
    requires Strip(SplitLines(content)[line - 1]) != []
    requires position < |Preprocess(SplitLines(content)[line - 1])|
    ensures p in DocEntries(docId, content)
    ensures p.occ.docId == docId && p.term == Stem(Preprocess(SplitLines(content)[line - 1])[position])
  {
    var infos := AnalyzeLines(SplitLines(content));
    p := EntryForUpTo(docId, infos, line, position);
  }

  lemma {:induction false} EntriesOrderedUpTo(docId: string, infos: seq<LineInfo>, k: nat)
    requires k <= |infos|
    ensures forall i, j :: 0 <= i < j < |EntriesUpTo(docId, infos, k)| ==>
      Before(EntriesUpTo(docId, infos, k)[i].occ, EntriesUpTo(docId, infos, k)[j].occ)
  {
    if k > 0 {
      EntriesOrderedUpTo(docId, infos, k - 1);
      EntriesSoundUpTo(docId, infos, k - 1);
      var prev := EntriesUpTo(docId, infos, k - 1);
      var here := LineEntries(docId, k, infos[k - 1]);
      var all := prev + here;
      forall i, j | 0 <= i < j < |all| ensures Before(all[i].occ, all[j].occ) {
        if j < |prev| {
          assert all[i] == prev[i] && all[j] == prev[j];
        } else if i < |prev| {
          assert all[i] == prev[i] && all[j] == here[j - |prev|];
        }
      }
    }
  }

  /** Number of tokens over the non-blank lines among the first `k`. */
  function TokenTotal(infos: seq<LineInfo>, k: nat): nat
    requires k <= |infos|
  {
    if k == 0 then 0 else TokenTotal(infos, k - 1) + (if infos[k - 1].blank then 0 else |infos[k - 1].terms|)
  }

  lemma {:induction false} EntriesCountUpTo(docId: string, infos: seq<LineInfo>, k: nat)
    requires k <= |infos|
    ensures |EntriesUpTo(docId, infos, k)| == TokenTotal(infos, k)
  {
    if k > 0 {
      EntriesCountUpTo(docId, infos, k - 1);
    }
  }

  /** Every occurrence `build_index(docId, content, _)` appends names `docId`,
      a 1-based number of a non-blank line of `content.split('\n')`, the
      index of the token within `preprocess_text` of that line, the stem of
      that token as its key, and `line.strip()[:200]` as its text. */
  lemma DocEntriesSound(docId: string, content: string)
    ensures forall p :: p in DocEntries(docId, content) ==> DescribesLine(docId, SplitLines(content), p)
  {
    var lines := SplitLines(content);
    var infos := AnalyzeLines(lines);
    EntriesSoundUpTo(docId, infos, |infos|);
    forall p | p in DocEntries(docId, content)
      ensures DescribesLine(docId, lines, p)
    {
      assert Describes(docId, infos, p);
      DescribesAnalyzed(docId, lines, p);
    }
  }

  /** What a posting says about the text of line `p.occ.line`. */
  predicate DescribesLine(docId: string, lines: seq<string>, p: Posting) {
    var o := p.occ;
    o.docId == docId && 1 <= o.line <= |lines| && Strip(lines[o.line - 1]) != [] &&
    o.position < |Preprocess(lines[o.line - 1])| &&
    p.term == Stem(Preprocess(lines[o.line - 1])[o.position]) &&
    o.originalLine == Take(Strip(lines[o.line - 1]), MAX_LINE_CHARS) && |o.originalLine| <= MAX_LINE_CHARS
  }

  lemma DescribesAnalyzed(docId: string, lines: seq<string>, p: Posting)
    requires Describes(docId, AnalyzeLines(lines), p)
    ensures DescribesLine(docId, lines, p)
  {
    var info := AnalyzeLines(lines)[p.occ.line - 1];
    assert info == Analyze(lines[p.occ.line - 1]);
  }

  /** Conversely, every token of every non-blank line has its occurrence. */
  lemma DocEntriesComplete(docId: string, content: string, line: nat, position: nat)
    requires 1 <= line <= |SplitLines(content)|
    requires Strip(SplitLines(content)[line - 1]) != []
    requires position < |Preprocess(SplitLines(content)[line - 1])|
    ensures exists p :: p in DocEntries(docId, content) && p.occ.line == line && p.occ.position == position
  {
    var infos := AnalyzeLines(SplitLines(content));
    EntriesCompleteUpTo(docId, infos, |infos|, line, position);
    var i :| 0 <= i < |DocEntries(docId, content)| &&
      DocEntries(docId, content)[i].occ.line == line && DocEntries(docId, content)[i].occ.position == position;
    assert DocEntries(docId, content)[i] in DocEntries(docId, content);
  }

  /** The occurrences are appended strictly in (line, position) order, so no
      (line, position) pair is recorded twice for the document. */
  lemma DocEntriesOrdered(docId: string, content: string)
    ensures forall i, j :: 0 <= i < j < |DocEntries(docId, content)| ==>
      Before(DocEntries(docId, content)[i].occ, DocEntries(docId, content)[j].occ)
  {
    var infos := AnalyzeLines(SplitLines(content));
    EntriesOrderedUpTo(docId, infos, |infos|);
  }

  /** The number of appended occurrences is the number of tokens over the
      non-blank lines. */
  lemma DocEntriesCount(docId: string, content: string)
    ensures |DocEntries(docId, content)| == TokenTotal(AnalyzeLines(SplitLines(content)), |SplitLines(content)|)
  {
    var infos := AnalyzeLines(SplitLines(content));
    EntriesCountUpTo(docId, infos, |infos|);
  }

  // ---------------------------------------------------------------------------
  // Appending postings to the inverted index

  /** `inverted_index[t]` of a `defaultdict(list)`, read without inserting. */
  function Lookup(inv: InvertedIndex, t: string): seq<Occurrence> {
    if t in inv then inv[t] else []
  }

  /** `inverted_index[p.term].append(p.occ)`. */
  function Insert(inv: InvertedIndex, p: Posting): InvertedIndex {
    inv[p.term := Lookup(inv, p.term) + [p.occ]]
  }

  /** Appending the postings `ps` one after the other. */
  function InsertAll(inv: InvertedIndex, ps: seq<Posting>): InvertedIndex
    decreases |ps|
  {
    if ps == [] then inv else Insert(InsertAll(inv, ps[..|ps| - 1]), ps[|ps| - 1])
  }

  /** Filing `a` and then `b` is filing `a + b`. */
  lemma {:induction false} InsertAllConcat(inv: InvertedIndex, a: seq<Posting>, b: seq<Posting>)
    ensures InsertAll(inv, a + b) == InsertAll(InsertAll(inv, a), b)
    decreases |b|
  {
    if b == [] {
      assert a + b == a;
    } else {
      var b' := b[..|b| - 1];
      assert (a + b)[..|a + b| - 1] == a + b';
      InsertAllConcat(inv, a, b');
    }
  }

  /** Filing line `k + 1` after the first `k` lines files the first `k + 1`. */
  lemma EntriesStep(inv: InvertedIndex, docId: string, lines: seq<string>, k: nat)
    requires k < |lines|
    ensures InsertAll(InsertAll(inv, EntriesUpTo(docId, AnalyzeLines(lines), k)), LineEntries(docId, k + 1, Analyze(lines[k])))
         == InsertAll(inv, EntriesUpTo(docId, AnalyzeLines(lines), k + 1))
  {
    var infos := AnalyzeLines(lines);
    InsertAllConcat(inv, EntriesUpTo(docId, infos, k), LineEntries(docId, k + 1, infos[k]));
  }

  /** The occurrences in `ps` filed under `t`, in order. */
  function OccurrencesOf(ps: seq<Posting>, t: string): seq<Occurrence> {
    if ps == [] then []
    else (if ps[0].term == t then [ps[0].occ] else []) + OccurrencesOf(ps[1..], t)
  }

  function Terms(ps: seq<Posting>): set<string> {
    set p | p in ps :: p.term
  }

  lemma {:induction false} OccurrencesOfSnoc(ps: seq<Posting>, p: Posting, t: string)
    ensures OccurrencesOf(ps + [p], t) == OccurrencesOf(ps, t) + (if p.term == t then [p.occ] else [])
  {
    if ps == [] {
      assert ps + [p] == [p];
    } else {
      assert (ps + [p])[1..] == ps[1..] + [p];
      OccurrencesOfSnoc(ps[1..], p, t);
    }
  }

  /** A key exists after appending iff it existed before or some posting is
      filed under it. */
  lemma {:induction false} InsertAllKeys(inv: InvertedIndex, ps: seq<Posting>)
    ensures InsertAll(inv, ps).Keys == inv.Keys + Terms(ps)
    decreases |ps|
  {
    if ps != [] {
      var init, last := ps[..|ps| - 1], ps[|ps| - 1];
      InsertAllKeys(inv, init);
      assert ps == init + [last];
      assert Terms(ps) == Terms(init) + {last.term};
    }
  }

  /** Appending one posting extends exactly its term's list. */
  lemma LookupInsert(inv: InvertedIndex, p: Posting, t: string)
    ensures Lookup(Insert(inv, p), t) == Lookup(inv, t) + (if p.term == t then [p.occ] else [])
  {
  }

  /** Each term's list grows by exactly the occurrences filed under it, in order. */
  lemma {:induction false} InsertAllAppends(inv: InvertedIndex, ps: seq<Posting>, t: string)
    ensures Lookup(InsertAll(inv, ps), t) == Lookup(inv, t) + OccurrencesOf(ps, t)
    decreases |ps|
  {
    if ps != [] {
      var init, last := ps[..|ps| - 1], ps[|ps| - 1];
      InsertAllAppends(inv, init, t);
      assert ps == init + [last];
      OccurrencesOfSnoc(init, last, t);
      LookupInsert(InsertAll(inv, init), last, t);
    }
  }

  /** Appending is append-only: each term's list grows by exactly the
      occurrences filed under it, in order, and a key exists afterwards iff
      it existed before or some posting is filed under it. */
  lemma InsertAllLookup(inv: InvertedIndex, ps: seq<Posting>)
    ensures InsertAll(inv, ps).Keys == inv.Keys + Terms(ps)
    ensures forall t :: Lookup(InsertAll(inv, ps), t) == Lookup(inv, t) + OccurrencesOf(ps, t)
  {
    InsertAllKeys(inv, ps);
    forall t ensures Lookup(InsertAll(inv, ps), t) == Lookup(inv, t) + OccurrencesOf(ps, t) {
      InsertAllAppends(inv, ps, t);
    }
  }

  /** Nothing is filed under a term no posting carries. */
  lemma {:induction false} OccurrencesOfAbsent(ps: seq<Posting>, t: string)
    requires t !in Terms(ps)
    ensures OccurrencesOf(ps, t) == []
  {
    if ps != [] {
      assert ps[0] in ps;
      assert Terms(ps[1..]) <= Terms(ps) by {
        forall u | u in Terms(ps[1..]) ensures u in Terms(ps) {
          var q :| q in ps[1..] && q.term == u;
          assert q in ps;
        }
      }
      OccurrencesOfAbsent(ps[1..], t);
    }
  }

  /** Filing `ps` leaves every other term's list as it was. */
  lemma InsertAllUntouched(inv: InvertedIndex, ps: seq<Posting>)
    ensures forall t :: t !in Terms(ps) ==> Lookup(InsertAll(inv, ps), t) == Lookup(inv, t)
  {
    forall t | t !in Terms(ps) ensures Lookup(InsertAll(inv, ps), t) == Lookup(inv, t) {
      InsertAllAppends(inv, ps, t);
      OccurrencesOfAbsent(ps, t);
    }
  }

  /** Every posting's occurrence is among those filed under its term. */
  lemma {:induction false} OccurrencesOfHas(ps: seq<Posting>, p: Posting)
    requires p in ps
    ensures p.occ in OccurrencesOf(ps, p.term)
  {
    if ps[0] != p {
      assert p in ps[1..];
      OccurrencesOfHas(ps[1..], p);
    }
  }

  /** Every occurrence under every key names a recorded document, a line
      number from 1, and a display text of at most 200 characters; no key
      has an empty list. */
  predicate WellFormedIndex(inv: InvertedIndex, docs: set<string>) {
    forall t :: t in inv ==> inv[t] != [] && forall o :: o in inv[t] ==> Recorded(o, docs)
  }

  predicate Recorded(o: Occurrence, docs: set<string>) {
    o.docId in docs && o.line >= 1 && |o.originalLine| <= MAX_LINE_CHARS
  }

  lemma {:induction false} OccurrencesOfMember(ps: seq<Posting>, t: string, o: Occurrence)
    requires o in OccurrencesOf(ps, t)
    ensures exists i :: 0 <= i < |ps| && ps[i].occ == o && ps[i].term == t
  {
    if ps[0].term == t && o == ps[0].occ {
    } else {
      OccurrencesOfMember(ps[1..], t, o);
      var i :| 0 <= i < |ps[1..]| && ps[1..][i].occ == o && ps[1..][i].term == t;
      assert ps[i + 1] == ps[1..][i];
    }
  }

  lemma {:induction false} OccurrencesOfNonEmpty(ps: seq<Posting>, t: string)
    requires t in Terms(ps)
    ensures OccurrencesOf(ps, t) != []
  {
    if ps[0].term != t {
      assert t in Terms(ps[1..]);
      OccurrencesOfNonEmpty(ps[1..], t);
    }
  }

  /** Filing the postings of lines whose shown text fits the limit keeps
      the index well formed. */
  lemma EntriesKeepWellFormed(inv: InvertedIndex, docs: set<string>, docId: string, infos: seq<LineInfo>)
    requires WellFormedIndex(inv, docs) && docId in docs
    requires forall k :: 0 <= k < |infos| ==> |infos[k].shown| <= MAX_LINE_CHARS
    ensures WellFormedIndex(InsertAll(inv, EntriesUpTo(docId, infos, |infos|)), docs)
  {
    var ps := EntriesUpTo(docId, infos, |infos|);
    var inv' := InsertAll(inv, ps);
    InsertAllLookup(inv, ps);
    EntriesSoundUpTo(docId, infos, |infos|);
    forall t | t in inv'
      ensures inv'[t] != [] && forall o :: o in inv'[t] ==> Recorded(o, docs)
    {
      assert inv'[t] == Lookup(inv, t) + OccurrencesOf(ps, t);
      if t !in inv {
        OccurrencesOfNonEmpty(ps, t);
      }
      forall o | o in inv'[t] ensures Recorded(o, docs) {
        if o !in Lookup(inv, t) {
          OccurrencesOfMember(ps, t, o);
          var i :| 0 <= i < |ps| && ps[i].occ == o && ps[i].term == t;
          assert Describes(docId, infos, ps[i]);
        }
      }
    }
  }

  /** Indexing one document's postings keeps the index well formed. */
  lemma InsertDocKeepsWellFormed(inv: InvertedIndex, docs: set<string>, docId: string, content: string)
    requires WellFormedIndex(inv, docs) && docId in docs
    ensures WellFormedIndex(InsertAll(inv, DocEntries(docId, content)), docs)
  {
    EntriesKeepWellFormed(inv, docs, docId, AnalyzeLines(SplitLines(content)));
  }

  /** Recording more documents keeps an index well formed. */
  lemma WellFormedGrows(inv: InvertedIndex, docs: set<string>, more: set<string>)
    requires WellFormedIndex(inv, docs) && docs <= more
    ensures WellFormedIndex(inv, more)
  {
  }
}
