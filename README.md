# Document search engine: indexing and retrieval core

This project models the in-memory full-text search engine of a small document
search web service (`app.py`). The service keeps two global tables:

- the inverted index, mapping each stemmed word to the list of its
  occurrences;
- the document store, mapping each document id to its metadata.

The modelled operations are:

- `build_index` files every token of every non-blank line of a document under
  its stem, with the document id, the 1-based line number, the token's
  position in the line, and the stripped line cut to 200 characters. It also
  records the document's metadata.
- `search_documents` turns a query into stems and returns one of three
  results: nothing, every document holding a single stem, or the documents
  holding all stems of a multi-word query. Each result lists the match count
  and up to 20 distinct lines in ascending order. Results are ordered by
  match count in a stable descending sort.
- `stats` reports the document count, the unique-word count and one summary
  per document in insertion order.
- `clear_index` empties both tables.

The modules follow the program's layers:

- `Text`: the Python string primitives the code relies on. These are
  `str.isspace`, `string.punctuation`, `lower()` on ASCII, `split()`,
  `strip()` and `split('\n')`.
- `Tokenizer`: `STOP_WORDS` and `preprocess_text`.
- `Stemmer`: `simple_stem`.
- `Postings`: the occurrence records, with the exact sequence of postings
  `build_index` appends for a document, and the append-only inverted index.
- `Ranking`: `search_documents` as functions. It covers grouping in
  first-encounter order, the multi-word filter, line selection and the
  stable sort. Lemmas here state what each step returns.
- `Engine`: the class `Index`, holding the two tables plus the insertion
  order of the document store. Its methods `BuildIndex`, `Search`, `Stats`
  and `Clear` carry the source's loops. Each method is proved against the
  functions above.

The multi-word filter compares the size of the set of matched stems with the
length of the query's list of stems. A query whose stems repeat, such as
`cloud clouds`, therefore returns nothing. The model keeps this behaviour as
written, and `Ranking.RepeatedTermNoResults` proves it.

## Model

| member | source | states |
|---|---|---|
| Text.ToLower | app.py:32-33 | an ASCII upper-case letter becomes its lower-case letter (code point + 32); every other character is unchanged; ASCII-ness is kept |
| Text.LowerIdempotent | app.py:32-33 | lowered text has no ASCII upper case left, and lowering it again changes nothing |
| Text.DropNonAscii | app.py:35-36 | only characters below 128 remain; text that is already ASCII is unchanged |
| Text.DropNonAsciiFrom | app.py:35-36 | every kept character comes from the input |
| Text.DropNonAsciiConcat | app.py:35-36 | the filter distributes over concatenation |
| Text.LowerConcat | app.py:32-33 | lowering works character by character: it distributes over concatenation |
| Text.PunctuationToSpaceConcat | app.py:38-39 | the punctuation translation works character by character: it distributes over concatenation |
| Text.SplitWords | app.py:41-42 | every word of `split()` is non-empty and free of whitespace |
| Text.SplitWordsChars | app.py:41-42 | every character of every word comes from the input |
| Text.SplitWordsConcat | app.py:41-42 | for ANY whitespace separator `c` (space, tab, carriage return, ...), the words of `a + c + b` are the words of `a` followed by those of `b` |
| Text.SplitJoin | app.py:41-42 | splitting the space-joined words returns those words |
| Text.LeadingSpaces | app.py:69 | the number of leading whitespace characters `strip()` removes from the front |
| Text.TrimEnd | app.py:69 | the prefix left after removing trailing whitespace; it does not end in whitespace |
| Text.Strip | app.py:69 | `strip()` is the slice left after removing leading and trailing whitespace; it neither starts nor ends with whitespace |
| Text.StripEmptyIffBlank | app.py:69-70 | a line is skipped exactly when all its characters are whitespace |
| Text.SplitLines | app.py:58 | `split('\n')` gives one more piece than the number of newlines, and no piece holds a newline |
| Text.JoinSplitLines | app.py:58 | joining the pieces with newlines gives back the content |
| Tokenizer.Normalize | app.py:32-39 | after lowering, the ASCII filter and the punctuation translation, every character is ASCII, not upper case and not punctuation (what each punctuation character becomes is stated by NormalizePunctuationConcat) |
| Tokenizer.KeepWords | app.py:44 | the comprehension returns its input when every word passes the filter |
| Tokenizer.KeepWordsKept | app.py:44 | every kept word passes `word not in STOP_WORDS and len(word) > 2` and is one of the input words |
| Tokenizer.KeepWordsConcat | app.py:44 | the filter preserves order: filtering a concatenation concatenates the filtered parts |
| Tokenizer.Preprocess | app.py:29-46 | every token is longer than 2, is not a stop word, and holds no upper-case ASCII, punctuation, whitespace or code point of 128 or above |
| Tokenizer.PreprocessConcat | app.py:29-46 | tokens come out in source order: for any ASCII whitespace separator `c` (space, tab, newline, carriage return, ...), tokenizing `a + c + b` gives the tokens of `a` followed by those of `b` |
| Tokenizer.NormalizePunctuationConcat | app.py:38-39 | each punctuation character becomes a space: normalising `a + p + b` gives `a` and `b` normalised, joined by one space |
| Tokenizer.PreprocessPunctuationConcat | app.py:29-46 | punctuation separates tokens: tokenizing `a + p + b` gives the tokens of `a` followed by those of `b` (so `e-mail` tokenizes as `e` and `mail`, never `email`) |
| Tokenizer.PreprocessIdempotent | app.py:29-46 | tokenizing the space-joined tokens returns the same token list |
| Tokenizer.PreprocessToken | app.py:29-46 | a single token tokenizes to itself |
| Tokenizer.PreprocessIgnoresCase | app.py:29-46 | tokenizing ignores ASCII case: tokenizing the lower-cased text gives the same tokens |
| Stemmer.StemFrom | app.py:51-54 | the scan from suffix `k` returns the word when no later suffix qualifies, and otherwise strips the first qualifying one |
| Stemmer.Stem | app.py:48-54 | the word is returned unchanged when no suffix qualifies; otherwise the FIRST qualifying suffix in list order is removed |
| Stemmer.StemShape | app.py:48-54 | the stem is a prefix of the word; when it differs, exactly one listed qualifying suffix was removed and more than 2 characters remain |
| Stemmer.FirstFiring | app.py:51-53 | if some suffix qualifies, a least qualifying index exists |
| Stemmer.StripShape | app.py:52-53 | removing a qualifying suffix leaves a proper prefix of more than 2 characters that the suffix completes to the word |
| Stemmer.NessNeverApplies | app.py:50-53 | the `ness` entry never applies: such words lose only their final `s` |
| Stemmer.StemNotIdempotent | app.py:48-54 | stemming is not idempotent: `classes` becomes `class`, which becomes `clas` |
| Postings.Analyze | app.py:69-83 | the shown text of a line is at most 200 characters long |
| Postings.EntriesSoundUpTo | app.py:68-84 | every posting of the first `k` lines describes a token of one of those lines: document id, line number, position, stem and shown line all agree |
| Postings.EntriesCompleteUpTo | app.py:68-84 | every token of a non-blank line among the first `k` has a posting |
| Postings.EntriesOrderedUpTo | app.py:68-84 | postings appear in (line, position) order |
| Postings.EntriesCountUpTo | app.py:68-84 | the number of postings is the sum of the token counts of the non-blank lines |
| Postings.DocEntriesSound | app.py:58-84 | every occurrence appended for document `d` has document id `d`; its 1-based line is non-blank; its position indexes the line's token list; its stem is the stem of that token; its `original_line` is `line.strip()[:200]`, of length at most 200 |
| Postings.DocEntriesComplete | app.py:68-84 | every token of every non-blank line gets an occurrence |
| Postings.EntryForUpTo | app.py:74-84 | the posting for a given line and position carries the document id and that token's stem |
| Postings.DocEntryFor | app.py:72-84 | for each token of a non-blank line there is an appended posting under the token's stem |
| Postings.DocEntriesOrdered | app.py:68-84 | occurrences are appended in (line, position) order |
| Postings.DocEntriesCount | app.py:68-84 | the number of new occurrences equals the sum of the token counts over the non-blank lines |
| Postings.InsertAllConcat | app.py:79 | appending two batches one after the other is appending their concatenation |
| Postings.EntriesStep | app.py:68-84 | filing line `k + 1` after the first `k` lines files the first `k + 1` lines |
| Postings.InsertAllKeys | app.py:79 | the index's keys grow by exactly the terms appended |
| Postings.LookupInsert | app.py:79-84 | one append adds the occurrence to the end of its own term's list only |
| Postings.OccurrencesOfSnoc | app.py:79-84 | a later posting adds its occurrence to the end of its term's list |
| Postings.InsertAllAppends | app.py:79 | each term's list keeps its old contents as a prefix, followed by the new occurrences for that term in order |
| Postings.InsertAllLookup | app.py:79 | keys and per-term lists together, as the two lemmas above state |
| Postings.InsertAllUntouched | app.py:79 | terms that are not appended keep their lists unchanged |
| Postings.OccurrencesOfAbsent | app.py:79 | nothing is filed under a term that no posting carries |
| Postings.OccurrencesOfHas | app.py:79 | every posting's occurrence ends up under its own term |
| Postings.OccurrencesOfMember | app.py:79-84 | every occurrence filed under a term comes from a posting for that term |
| Postings.OccurrencesOfNonEmpty | app.py:79-84 | a term that some posting carries gets a non-empty list |
| Postings.EntriesKeepWellFormed | app.py:68-84 | after indexing, every key's list is non-empty and every occurrence names a recorded document, with a 1-based line and a shown line of at most 200 characters |
| Postings.InsertDocKeepsWellFormed | app.py:56-84 | indexing a document that is recorded in the store keeps the index well formed |
| Postings.WellFormedGrows | app.py:61-66 | adding documents to the store keeps the index well formed |
| Ranking.FirstIndex | app.py:102-105 | the index of the first occurrence of a document, or the list length when the document does not occur |
| Ranking.GroupWellFormed | app.py:102-105 | grouping lists each document once, with exactly the documents that have a group |
| Ranking.GroupKeys | app.py:102-105 | the grouped documents are exactly the documents of the occurrences |
| Ranking.GroupContents | app.py:102-105 | each document's group is its occurrences, in index order |
| Ranking.GroupOrder | app.py:102-105 | documents are ordered by their first occurrence, as dict insertion order gives |
| Ranking.GroupSpec | app.py:102-105 | the grouping: each document listed once, the grouped documents are those of the occurrences, and each group holds that document's occurrences in order |
| Ranking.QueryHitsStep | app.py:110-112 | after one more query word, the visited postings are the earlier ones followed by that word's list |
| Ranking.CollectGroups | app.py:108-115 | the collected `occurrences` and the document order equal the grouping of all visited occurrences |
| Ranking.CollectKeys | app.py:108-115 | the collected documents are exactly those with a visited occurrence |
| Ranking.CollectTerms | app.py:115 | each document's `word_count` is exactly the set of query stems that have an occurrence in it |
| Ranking.TermsForAbsent | app.py:115 | a document with no visited occurrence has no matched stems |
| Ranking.QueryHitsMember | app.py:110-112 | a posting is visited iff its stem is a query word that is in the index and its occurrence is filed under that stem |
| Ranking.MatchedTermsAreTermsFor | app.py:110-115 | a document's matched stems are the query words that are indexed and have an occurrence in it |
| Ranking.CompleteUpToMembers | app.py:118-121 | a document passes the filter iff its matched set has as many elements as the query has stems; it keeps all its collected occurrences |
| Ranking.CompleteUpToOrder | app.py:118-121 | the filter keeps the order of the collected documents |
| Ranking.FirstSeenKeys | app.py:127-131 | the line numbers in `unique_lines` are exactly those of the occurrences |
| Ranking.FirstSeenValues | app.py:127-131 | each line number maps to the `original_line` of the FIRST occurrence seen for that line |
| Ranking.SortedItemsSound | app.py:139 | every listed line is a key within the bound, paired with its text |
| Ranking.SortedItemsAscending | app.py:139 | listed line numbers are strictly ascending, hence distinct |
| Ranking.SortedItemsComplete | app.py:139 | every key within the bound is listed |
| Ranking.LineBound | app.py:139 | a bound above every line number of the occurrences |
| Ranking.ResultLinesSound | app.py:127-139 | at most 20 lines, strictly ascending, each with the text of the first occurrence on it |
| Ranking.ResultLinesComplete | app.py:127-139 | a line with an occurrence is listed unless 20 lower-numbered lines already fill the list |
| Ranking.FirstLine | app.py:128-131 | a line number with an occurrence has a first occurrence |
| Ranking.FormatAll | app.py:124-140 | one formatted entry per grouped document, in grouping order |
| Ranking.FormatAllOrder | app.py:124-140 | the i-th formatted entry is the i-th grouped document |
| Ranking.InsertByMatchesShape | app.py:143 | inserting below all greater counts and before entries with equal or smaller ones |
| Ranking.InsertByMatchesPermutes | app.py:143 | insertion adds exactly the one entry |
| Ranking.SortByMatchesOrdered | app.py:143 | the sorted list has non-increasing `matches` |
| Ranking.SortByMatchesPermutes | app.py:143 | the sorted list is a permutation of its input |
| Ranking.SortByMatchesStable | app.py:143 | entries with equal `matches` keep their input order (the sort is stable) |
| Ranking.SortedFrom | app.py:143 | each sorted entry comes from the input |
| Ranking.RankSpec | app.py:124-143 | the ranked list holds one entry per grouped document, formatted from its group; it is ordered by non-increasing matches, with ties in grouping order |
| Ranking.RankMembers | app.py:124-143 | every ranked entry is a grouped document formatted from its group, and every grouped document is ranked |
| Ranking.RankOrder | app.py:143 | ranked entries have non-increasing matches, and ties keep grouping order |
| Ranking.RankDistinct | app.py:124-143 | no document is ranked twice |
| Ranking.ResultDocsCard | app.py:124-143 | distinct entries name as many documents as there are entries |
| Ranking.ResultCount | app.py:124-143 | a duplicate-free list covering exactly `chosen` has `|chosen|` entries |
| Ranking.SingleTermSearch | app.py:96-105 | an absent stem gives `[]`; a present one gives exactly the documents with an occurrence of it: one entry each, `matches` = the occurrence count, ordered by matches, ties by first occurrence |
| Ranking.MultiTermSearch | app.py:106-143 | several stems give exactly the documents whose matched set has `len(query_words)` elements, each formatted from all its collected occurrences, ordered by matches with ties in first-encounter order |
| Ranking.QueryHitsRecorded | app.py:110-115 | on a well-formed index every document the multi-word loop visits is a recorded document |
| Ranking.SearchUsesStore | app.py:133-138 | on a well-formed index every result names a stored document; its `document` and `total_lines` are that document's name and line count, so the fallbacks `doc_id` and 0 never apply |
| Ranking.SeqSetCard | app.py:120 | a list's set is never larger than the list, and is as large exactly when the list has no repeats |
| Ranking.MatchedAllIff | app.py:118-121 | with distinct stems, the size test holds iff every stem is indexed with an occurrence in the document |
| Ranking.MultiTermAnd | app.py:106-121 | with distinct stems, a document is returned iff it contains every query stem |
| Ranking.RepeatedTermNoResults | app.py:118-121 | a query whose stems repeat returns `[]` |
| Ranking.RankedNone | app.py:124-143 | a ranking of no documents is empty |
| Ranking.QueryHitsEmptyIndex | app.py:110-112 | on an empty index no occurrence is visited |
| Ranking.EmptyIndexSearch | app.py:86-145 | on an empty index every query returns `[]` |
| Engine.MetaFor | app.py:61-66 | the metadata records the given name, `len(content)`, and the line count `content.count('\n') + 1`, blank lines included |
| Engine.FiledUnder | app.py:79-84 | once filed, a posting's document is among the documents under its term |
| Engine.IndexedTermFound | app.py:56-145 | after `build_index`, a search for the stem of any of the document's tokens lists the document |
| Engine.IndexedTokenFound | app.py:29-145 | after `build_index`, a search for any token the tokenizer kept from the document lists the document |
| Engine.Index.constructor | app.py:17-18 | both tables start empty |
| Engine.Index.BuildIndex | app.py:56-84 | the metadata entry is written and no other; the index becomes the old index with the document's postings appended in order; lists are append-only, and untouched keys keep their lists; the store stays in step with the index |
| Engine.Index.Record | app.py:61-66 | a new document id goes to the end of the store's iteration order; an existing one keeps its place |
| Engine.Index.IndexLines | app.py:68-84 | the line loop appends exactly the postings of all lines |
| Engine.Index.IndexLineAt | app.py:68-84 | a blank line appends nothing; otherwise the line's postings are appended |
| Engine.Index.IndexLine | app.py:72-84 | the token loop appends one occurrence per token under its stem |
| Engine.Index.Search | app.py:86-145 | returns `SearchSpec` of the current tables: `[]` for no stems, otherwise the single-term or multi-term result above |
| Engine.Index.GroupOccurrences | app.py:102-105 | the grouping loop computes `Group` |
| Engine.Index.CollectMatches | app.py:108-115 | the double loop computes `Collect` of all visited postings |
| Engine.Index.AddWordHits | app.py:112-115 | the inner loop adds one word's occurrences to the per-document matches, as `Collect` of the extended visit sequence |
| Engine.Index.KeepComplete | app.py:118-121 | the filter loop computes `Complete` |
| Engine.Index.UniqueLines | app.py:127-131 | the loop builds the first-seen line map |
| Engine.Index.FormatResults | app.py:124-140 | the formatting loop produces one entry per grouped document |
| Engine.Index.SortResults | app.py:143 | the sort computes `SortByMatches` |
| Engine.Index.Stats | app.py:507-518 | `total_documents` is the number of records, `total_unique_words` the number of keys; the list has one summary per record in insertion order, as many as `total_documents` |
| Engine.Index.StoreCount | app.py:507-516 | the store has one record per listed id |
| Engine.Index.SearchNamesStoredDocuments | app.py:133-138 | in every reachable state, each search result takes its document name and total lines from the store |
| Engine.Index.Clear | app.py:520-526 | both tables are empty, and every search afterwards returns `[]` |

## Left out

- Flask routes, request parsing, HTTP status codes and the `.txt` filename check (app.py:147-502): web I/O glue around the core.
- The inline HTML, CSS and JavaScript page: user interface only.
- Azure Blob Storage calls: foreign network code.
- `time.time()`: `BuildIndex` takes the timestamp as the parameter `indexedAt`. Doc-id generation and search timing belong to the routes.
- UTF-8 decoding of uploads with `errors='ignore'`: the model starts from the decoded text.
- Tokenizer.Normalize: `str.lower()` is modelled on ASCII only. The few non-ASCII characters that Python lowercases to ASCII (the Kelvin sign becomes `k`) are dropped by the model instead.
- Engine.MetaFor: `size` is `len(content)` in code points, as the code computes it, not a byte count.
- Ranking.SortByMatches: the in-place `list.sort` is modelled as a stable insertion sort on values. Its results equal Python's stable sort, but the model does not capture the in-place algorithm.
- Ranking.SortedItems: `sorted(unique_lines.items())` is modelled by walking the line numbers upward from 0 to one past the largest occurring line.
- Engine.Index.BuildIndex: the methods `IndexLineAt` and `IndexLine` strip, tokenize, cut and stem each line directly, as the code does. Their contracts are stated through the pure per-line function `Postings.Analyze`, which performs the same steps. The metadata record is written before the lines are filed, as in the source.
- Concurrency: the code has none. The two globals are fields of a single `Index` object, and `Clear` resets them in place instead of rebinding the globals.
- A query that yields no stems returns `[]` by the first case of `Ranking.SearchTerms`. No lemma restates that case.
