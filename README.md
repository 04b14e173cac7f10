# Document analyzer, modelled in Dafny

This project models the core of a small document-analysis service: the
`DocumentAnalyzer` class in `document_analyzer.py`. The class keeps a
store of documents. The store is an insertion-ordered dictionary from
identifiers `doc_001`, `doc_002`, … to metadata, plus a content directory
with one `.txt` file per document. On that store the class runs:

- sentiment categorisation of a TextBlob polarity;
- keyword extraction by word frequency;
- a simplified Flesch reading-ease score;
- basic text statistics;
- a combined analysis;
- document addition;
- relevance-scored search;
- listing of all documents.

Layout, one module per file:

| file | module | what it holds |
|---|---|---|
| `wrappers.dfy` | `Wrappers` | `Option` and `Result` |
| `text.dfy` | `Text` | Python's string primitives as the code uses them |
| `ranking.dfy` | `Ranking` | the stable descending sort used by `Counter.most_common` and `list.sort(reverse=True)` |
| `keywords.dfy` | `Keywords` | `extract_keywords` |
| `sentiment.dfy` | `Sentiment` | `get_sentiment` |
| `readability.dfy` | `Readability` | `calculate_readability` |
| `statistics.dfy` | `Statistics` | `get_basic_stats` |
| `store.dfy` | `Store` | the store, identifiers, `_read_document_content`, `add_document` and `get_all_documents` as functions on states |
| `search.dfy` | `Search` | the scoring and ranking of `search_documents` |
| `analyzer.dfy` | `Analyzer` | the `DocumentAnalyzer` class |

The Python string primitives in `Text` are:

- `\w` runs, as matched by `re.findall(r'\b\w+\b')`;
- `re.split(r'[.!?]+')` followed by strip-and-drop-blank;
- `str.split()`, `str.split('\n\n')` and `str.strip()`;
- `in` and `str.count` on strings;
- ASCII `str.lower()`;
- the universal-newline translation of a file read in text mode.

The `DocumentAnalyzer` class has three fields:

- `order` and `documents`: the dictionary, as its key order and its key-to-value map;
- `files`: the content directory.

`AddDocument` updates these fields in place. `SearchDocuments` and
`CalculateReadability` are the source's loops, and each is proved equal to
a specification function (`Search.SearchResults`,
`Readability.ReadabilityOf`). The properties are proved about those
functions.

Search scores are kept in tenths:

- title 30;
- author 20;
- category 20;
- content 10, plus 1 per occurrence.

These are the source's 3, 2, 2 and 1 plus 0.1 per occurrence, multiplied
by ten. They are exact, and they rank exactly as the source's rounded
floats do.

`Store.Sequential` describes a store built by `add_document` alone: its
keys are exactly `doc_001` … `doc_n`, in that order, each with its own
file.

A store loaded from a file may hold other keys. From such a store
`add_document` can pick an identifier that is already taken. The model
keeps the source's behaviour in that case: the entry is overwritten in
place and keeps its position, as in a Python dictionary. That is why the
freshness and append properties are stated under `Sequential`.

## Model

| member | source | states |
|---|---|---|
| Sentiment.CategorizeSpec | document_analyzer.py:78-84 | polarity above 0.1 is positive, below -0.1 negative, otherwise neutral (both ends neutral); each category exactly on its range |
| Sentiment.CategorizeMonotone | document_analyzer.py:78-84 | a larger polarity never yields a less positive category |
| Sentiment.GetSentiment | document_analyzer.py:65-90 | the label returned is "positive" exactly when the polarity is above 0.1, "negative" exactly when below -0.1, "neutral" otherwise (both ends neutral); polarity and subjectivity are those of TextBlob |
| Keywords.TallySpec | document_analyzer.py:124-125 | `Counter(words)` holds one entry per distinct word, with its exact number of occurrences, in first-occurrence order |
| Keywords.RankedSpec | document_analyzer.py:127-128 | the full ranking is a permutation of the counter, non-increasing in frequency, equal frequencies in first-occurrence order, no repeated word |
| Keywords.MostCommonSpec | document_analyzer.py:124-130 | `most_common(limit)` has every distinct word for `None`, otherwise min(limit, distinct words) entries (none for limit <= 0); each entry is a word with its exact count; frequencies never increase; ties keep first-occurrence order; no word repeats; no omitted word occurs more often than a returned one; an omitted word as frequent as a returned one first occurs later |
| Keywords.FilteredWordsShape | document_analyzer.py:104-122 | every counted token is a lower-case ASCII word of at least three letters that is not a stop word |
| Keywords.ExtractKeywordsSpec | document_analyzer.py:92-130 | at most `limit` keywords, every one for `None` or a large enough limit; each is a lower-case non-stop word of three or more letters with its exact frequency in the filtered tokens |
| Readability.SyllableSumAtLeastWords | document_analyzer.py:150-157 | every word counts at least one syllable, so syllables >= words |
| Readability.CountSyllables | document_analyzer.py:150-157 | the loop adds up each word's vowel count, at least 1 per word, so the total is at least the number of words |
| Readability.LevelOfCountsThresholds | document_analyzer.py:173-186 | the reading level is the number of the thresholds 30, 50, 60, 70, 80, 90 the score reaches, never "unreadable" |
| Readability.LevelOfMonotone | document_analyzer.py:173-186 | a higher score never gives a harder level |
| Readability.LevelLabels | document_analyzer.py:173-186 | each of the seven labels "very easy" … "very difficult" is reported exactly on its band of the score (>= 90, [80, 90), …, < 30), and a score never gives "unreadable" |
| Readability.WordsImplySentence | document_analyzer.py:142-148 | a text with a `\w` word has at least one non-blank sentence |
| Readability.ReadabilitySpec | document_analyzer.py:132-194 | the result is the all-zero one labelled "unreadable" exactly when the text has no word; otherwise the averages are positive, at least one syllable per word, the score is below 206.835 - 84.6 and the level is the score's step |
| Readability.FleschBound | document_analyzer.py:167-171 | with syllables >= words the sentence length is positive, the syllables per word at least 1 and the score below 122.235 |
| Readability.CalculateReadability | document_analyzer.py:132-194 | the loop's result equals `ReadabilityOf(text)`; unreadable exactly without words; otherwise at least one syllable per word and the level is the score's step |
| Statistics.RemoveCharSpec | document_analyzer.py:207-208 | removing spaces shortens the text by exactly its number of spaces and leaves none |
| Statistics.ParagraphsEmpty | document_analyzer.py:219-222 | there is no paragraph exactly when the text is blank |
| Statistics.BasicStatsSpec | document_analyzer.py:196-231 | characters minus characters-without-spaces is the number of spaces; no sentence means no word and a zero average; otherwise the average is words over sentences; paragraphs exist exactly when the text is not blank |
| Statistics.StatsAgreeWithReadability | document_analyzer.py:142-148 | statistics and readability share tokenisers: readability is unreadable exactly when the word count is 0, and its sentence length equals the words-per-sentence average |
| Text.FieldsSpec | document_analyzer.py:147 | the tokens are non-empty and separator-free, and the text is exactly the tokens in order with separator-only gaps between them, every gap between two tokens non-empty, so each token is a whole maximal run; hence they concatenate to the text without its separators, one per run start |
| Text.StrippedNonBlankEmpty | document_analyzer.py:143-144 | the stripped non-blank pieces are none exactly when every piece is blank |
| Text.StripIsInfix | document_analyzer.py:144 | `s.strip()` is a piece of `s` with only whitespace before and after it |
| Text.SplitOnJoin | document_analyzer.py:220 | joining the pieces of `text.split(sep)` with `sep` gives the text back |
| Text.SplitOnPieces | document_analyzer.py:220 | no piece of `text.split(sep)` contains `sep` |
| Text.ContainsIsSubstring | document_analyzer.py:327-341 | `q in s` holds exactly when `q` occurs at some position of `s` |
| Text.CountSpec | document_analyzer.py:341-344 | `s.count(q)` is positive exactly when `q in s`; for non-empty `q` its occurrences fit in `s` |
| Ranking.SortDescSpec | document_analyzer.py:358 | the stable descending sort is a permutation, non-increasing, and keeps arrival order among equal keys |
| Store.ReadDocumentContent | document_analyzer.py:54-63 | an unknown identifier, an entry without a file name and a missing file are errors; otherwise the file's text as a text-mode read returns it, every `\r\n` and lone `\r` turned into `\n` |
| Text.UniversalNewlinesKeeps | document_analyzer.py:62-63 | a text-mode read returns text without carriage returns unchanged |
| Store.GetAllDocuments | document_analyzer.py:362-370 | one entry per stored identifier, in insertion order, with its metadata, no identifier twice |
| Store.ParseFormatId | document_analyzer.py:279 | `doc_` plus the zero-padded number parses back to that number |
| Store.FormatIdInjective | document_analyzer.py:279 | different counts give different identifiers |
| Store.AddSpec | document_analyzer.py:268-308 | the identifier is `doc_` and the entry count plus one; the defaults "Document <id>", "Unknown", "General" fill absent fields; word count is the whitespace-split count; the content reads back with its line breaks normalised, and exactly as written when it has no `\r`; other entries are untouched |
| Store.NextIdFresh | document_analyzer.py:279 | in a sequential store the next identifier is not taken |
| Store.AddSequential | document_analyzer.py:268-308 | from a sequential store the new entry is appended at the end, the store stays sequential, `get_all_documents` grows by exactly the new entry, and other entries and their contents are unchanged |
| Search.ScoreSpec | document_analyzer.py:323-344 | the score is the metadata score, plus 10 and the occurrence count when the readable content contains the query (so at least 11), plus nothing when it cannot be read |
| Search.HitsSpec | document_analyzer.py:323-356 | the scan keeps exactly the positive-scoring documents, with their scores and metadata, in store order |
| Search.SearchSpec | document_analyzer.py:310-360 | every result is a stored document with a positive score for the lower-cased query and its stored fields; every such document appears once; relevance never increases; equal relevances keep store order |
| Analyzer.DocumentAnalyzer.AddDocument | document_analyzer.py:268-308 | the new state is `Add(old state, data)`; the returned identifier is `doc_` and the entry count plus one; the content reads back with its line breaks normalised, and exactly as written when it has no `\r`; from a sequential store the entry is new, appended, the store stays sequential and nothing else changes |
| Analyzer.DocumentAnalyzer.ScoreDocument | document_analyzer.py:323-344 | the computed score is `Score` for that document, at least its metadata score, positive exactly when the metadata or content part is |
| Analyzer.DocumentAnalyzer.SearchDocuments | document_analyzer.py:310-360 | the scan and sort return `SearchResults(state, query)` |
| Analyzer.DocumentAnalyzer.AnalyzeDocument | document_analyzer.py:233-266 | an unknown identifier gives `NotFound`; the analysis fails exactly when the content cannot be read, with that error; otherwise it holds the identifier, the stored metadata and the four analyses of the content, and the timestamp "N/A" |

## Left out

- TextBlob's polarity and subjectivity are not modelled. `AnalyzeDocument` takes the scorer as a function parameter. `GetSentiment` takes its scores, not the text.
- Rounding is not modelled. This covers `round(..., 3)` on the sentiment scores and `round(..., 2)` on the readability figures, the average and the relevance. Results are exact reals, and search relevance is exact tenths.
- Readability.CalculateReadability: the Flesch score is computed over exact reals, not binary floating point.
- Files are written as on a POSIX system: `\n` is written as is, so the content directory holds the content exactly; the universal-newline translation happens on reading.
- Characters are restricted to ASCII for `\w`, `[a-zA-Z]` and `str.lower()`. Non-ASCII letters are treated as non-word characters and are not lower-cased. Whitespace uses Python's full `isspace` set.
- Persistence is not modelled: `_load_documents`, `_save_documents`, the JSON encoding and `os.makedirs`. The constructor takes the loaded store as a value.
- The content directory is a map from file name to text. Every way reading it can fail (a missing file, a decoding error, a permission error) is the single error `Unavailable`.
- Store.GetAllDocuments and Analyzer.DocumentAnalyzer.AnalyzeDocument: entries loaded from `documents.json` are assumed to hold exactly the six keys `add_document` writes (`Metadata` has those fields and no others). Extra keys, or a missing `created_date` or `word_count`, are not representable; a stored `"document_id"` key would override the identifier in the `{"document_id": doc_id, **metadata}` entry that `get_all_documents` builds (document_analyzer.py:364-369), and `analyze_document` returns the stored metadata as it is (document_analyzer.py:256).
- Store.AddSpec and Analyzer.DocumentAnalyzer.AddDocument: the fields of `document_data` are strings or absent (`DocumentData` uses `None` for an absent key, which gets the default). A key present with JSON null is not modelled: the source would store a null title, author or category, after which every `search_documents` raises `AttributeError` at `.lower()`; a null content raises `TypeError` at `f.write` after the file has been created.
- Metadata read from a store file is assumed to hold strings, or nothing, in its text fields. A value of another type would make `.lower()` raise in the source.
- `analysis_timestamp` and `created_date` are the constant "N/A", as in the source. The date is not a clock reading.
- Concurrency and interleaved file access are not modelled.
- `mcp_server.py`, `mcp_server_official.py`, `server.py`, `setup.py` and `test_client.py` are not part of this model. They expose the same operations over a protocol.
