# QueryLens search core in Dafny

QueryLens is a keyword search service over a news-article corpus. This project
models its search core:

- the **text normaliser** `clean_text` (app/preprocessing.py). It maps missing
  values to the empty text. Otherwise it lower-cases the text, turns every
  character other than `a`-`z` and whitespace into a space, splits on
  whitespace, drops stop words and rejoins the words with single spaces;
- the **search engine** `SearchEngine` (app/search_engine.py). It covers
  corpus preparation (`_prepare_dataframe`), the category list
  (`get_categories`), and query-time filtering, ranking and top-k selection
  (`search`).

Layout:

- `wrappers.dfy`: module `Wrappers`, with `Option` and `Result`.
- `preprocessing.dfy`: module `Preprocessing`, with `CleanText` and its
  properties.
- `string_order.dfy`: module `StringOrder`. It holds Python's `str` ordering
  and the sorted, de-duplicated list that `get_categories` returns.
- `search_engine.dfy`: module `Engine`. It holds the loaded table (`Frame`,
  `Row`), documents (`Doc`), the corpus preparation spec `PrepareCorpus`,
  the class `SearchEngine`, and the ranking.

Modelling choices:

- Characters are ASCII. `IsSpace` is Python's `str.isspace` on ASCII: codes
  9-13, 28-31 and 32. This is the class that `str.strip`, `str.split` and
  the regular-expression class `\s` share.
- The stop words are a parameter of `CleanText`, of type `set<string>`.
  Every property is proved for any stop set, except one.
  `MarkerBreaksIdempotence` requires that "nan" is not a stop word. The
  engine keeps one set in the field `stopWords` and uses it for both
  documents and queries.
- A cell is `Option<string>`. `None` stands for a missing cell (NaN, None,
  NaT). Any other cell is given as its `str()` rendering.
- The engine is a class. Its constructor runs the row-by-row preparation
  loop and is proved equal to the spec function `PrepareCorpus`. The corpus
  is never changed after construction, so `docs` and `stopWords` are `const`.
- `Search` takes the cosine similarity of the query to each document as the
  input `similarities`, one entry per document. It also returns a ghost
  `picked`: the ordinal of the document behind each hit.

Two properties one might expect of the code do not hold:

- Re-normalising is not always a no-op. "NaN!" normalises to "nan", and
  "nan" normalises to "". `CleanTextIdempotent` proves the qualified form;
  `MarkerBreaksIdempotence` proves the exception.
- Equal scores are not ranked by ascending ordinal. `argsort()[::-1]` leaves
  their order open, so `IsTopRanking` fixes no order among ties.

## Model

| member | source | states |
|---|---|---|
| `Preprocessing.CleanText` | app/preprocessing.py:15-32 | definition: `None` and a float NaN give ""; otherwise the text is stripped; blank text gives ""; a lower-cased result of "nan", "nat" or "none" gives ""; otherwise every character other than `a`-`z` and whitespace becomes a space, the text is split on whitespace, and the non-empty tokens outside the stop set are joined with single spaces |
| `Preprocessing.BlankQueryCleansToEmpty` | app/preprocessing.py:23-25 | a text made only of whitespace, the empty text included, normalises to "" |
| `Preprocessing.MissingCleansToEmpty` | app/preprocessing.py:17-25 | `None`, a float NaN, the empty text and an all-whitespace text all normalise to "" |
| `Preprocessing.CleanTextAsLetterRuns` | app/preprocessing.py:23-32 | if the stripped, lower-cased input is "nan", "nat" or "none", the result is ""; otherwise it is the single-space join of the maximal `a`-`z` runs of the lower-cased input that are not stop words, so longer texts containing those words are unaffected |
| `Preprocessing.CleanTextTokens` | app/preprocessing.py:26-32 | outside the marker case, the output's tokens are exactly the non-stop-word maximal `a`-`z` runs of the lower-cased input, in order, duplicates kept; digits and punctuation separate words |
| `Preprocessing.CleanTextEmptyIff` | app/preprocessing.py:23-32 | the output is "" exactly when the input is a marker or every letter run in it is a stop word |
| `Preprocessing.CleanTextWellFormed` | app/preprocessing.py:29-32 | the output holds only `a`-`z` and single spaces, has no space at either end and no empty token; every token is a non-empty word and none is a stop word |
| `Preprocessing.CleanTextIdempotent` | app/preprocessing.py:23-32 | normalising an output again returns it unchanged, unless that output is exactly a marker |
| `Preprocessing.MarkerBreaksIdempotence` | app/preprocessing.py:26-28 | the marker exception occurs: "NaN!" normalises to "nan", and "nan" normalises to "" |
| `Preprocessing.SplitScrub` | app/preprocessing.py:29-30 | after the `[^a-z\s]` substitution, `split()` yields exactly the maximal letter runs of the text before it |
| `Preprocessing.SplitJoin` | app/preprocessing.py:30-32 | splitting the `" ".join` of non-empty letter words gives the words back |
| `Preprocessing.StripKeepsLetterRuns` | app/preprocessing.py:23-26 | stripping before lower-casing does not change the letter runs of the text |
| `Preprocessing.StripShape` | app/preprocessing.py:23 | `strip()` leaves no whitespace at either end and changes nothing in a text that has none there |
| `Preprocessing.RemoveStopsMembers` | app/preprocessing.py:31 | a token is in the filtered list exactly when it is in the input, non-empty and not a stop word |
| `Preprocessing.RemoveStopsKeepsAll` | app/preprocessing.py:31 | when no token is empty or a stop word, the comprehension returns its input unchanged |
| `Preprocessing.RemoveStopsProperties` | app/preprocessing.py:31 | a token survives the comprehension exactly when it is non-empty and not a stop word; letter words stay letter words; nothing changes when no token is dropped; the result is empty exactly when every token is empty or a stop word |
| `Engine.RawText` | app/search_engine.py:51-57 | definition: each present text column's cell, with a missing cell read as "", is stripped; the non-empty values are joined with one space, in the column order full_content, content, description, title |
| `Engine.PublishedDisplay` | app/search_engine.py:75-79 | definition: the formatted timestamp when the published_at column exists and its cell parses; "" when the column is absent, the cell is missing or it does not parse |
| `Engine.ImageUrl` | app/search_engine.py:86-91 | definition: the stripped url_to_image cell when that column exists, else the stripped image_url cell when that column exists, else ""; a missing cell reads as "" |
| `Engine.MakeDoc` | app/search_engine.py:51-91 | definition: the derived columns of one row, namely raw_text, clean_text, a 500-character snippet, the title falling back to 80 characters of the snippet, the category falling back to "Unknown", the stripped url, image_url and published_at_display |
| `Engine.Retain` | app/search_engine.py:93 | definition: the documents whose `clean_text` is not empty, in their original order |
| `Engine.PrepareCorpus` | app/search_engine.py:42-93 | definition: the missing-text-columns error when none of the four text columns exists; otherwise every row made a document, with empty-`clean_text` rows dropped |
| `Engine.PrepareFailsIff` | app/search_engine.py:44-48 | construction fails, with the missing-text-columns error, exactly when none of full_content, content, description, title is a column |
| `Engine.RawTextProperties` | app/search_engine.py:51-57 | `raw_text` has no whitespace at either end; it is "" exactly when every present text cell is missing or blank; with one text column it is that column's stripped value |
| `Engine.DocFields` | app/search_engine.py:59-73 | the snippet is the first 500 characters of `raw_text`; the title is the stripped source title, or else the first 80 characters of `raw_text`, and is non-empty when `clean_text` is; the category is the stripped source value, or "Unknown", never empty and without surrounding whitespace |
| `Engine.RetainKeepsOrder` | app/search_engine.py:93 | dropping empty-`clean_text` rows keeps every other row, in its original relative order, numbered contiguously from 0, and drops exactly the rows with empty `clean_text` |
| `Engine.CorpusInvariant` | app/search_engine.py:59-93 | every document of a prepared corpus has non-empty `clean_text`, title and category |
| `Engine.SearchEngine.constructor` | app/search_engine.py:42-93 | the row-by-row preparation yields exactly the corpus `PrepareCorpus` specifies, with the given stop words |
| `Engine.SearchEngine.Build` | app/search_engine.py:20-26 | building fails exactly when `PrepareCorpus` fails and with its error; otherwise the new engine holds the prepared corpus |
| `Engine.SearchEngine.GetCategories` | app/search_engine.py:95-98 | the result is strictly increasing in Python's string order, and its elements are exactly the non-empty categories of the corpus |
| `StringOrder.DistinctSorted` | app/search_engine.py:97 | `sorted` of the set of non-empty values is strictly increasing and holds exactly the non-empty values |
| `StringOrder.SortedUnique` | app/search_engine.py:97 | a strictly increasing sequence is determined by its elements, so the category list is the only sorted answer |
| `StringOrder.LessTotal` | app/search_engine.py:97 | Python's string order relates any two different strings one way or the other |
| `StringOrder.Less` | app/search_engine.py:97 | definition: Python's `<` on `str`, which `sorted` uses; code points are compared left to right, and a proper prefix comes first |
| `Engine.Candidates` | app/search_engine.py:112-120 | the candidate ordinals are increasing, are in range, and are exactly the documents the category filter admits; with no filter, or the filter "" or "All", that is every document |
| `Engine.CandidatesEmptyIff` | app/search_engine.py:113-115 | there are no candidates exactly when no document passes the category filter, which is when `mask.any()` is false |
| `Engine.IsTopRanking` | app/search_engine.py:126 | definition of a valid `argsort()[::-1][:k]`: `k` distinct positions in range, with scores that do not increase along the ranking, and no position left out scoring higher than a position taken; the order among equal scores is left open |
| `Engine.HighestRemaining` | app/search_engine.py:126 | returns a position among those not yet ranked whose score none of them exceeds |
| `Engine.RankTop` | app/search_engine.py:125-126 | the first `k` ranked positions are distinct, their scores do not increase along the ranking, and no position left out scores higher than any position taken |
| `Engine.CollectHits` | app/search_engine.py:128-145 | hits follow the ranking; each hit comes from a ranked candidate with score > 0, with all fields from that one document; every ranked candidate with a positive score becomes a hit |
| `Engine.SkipRank` | app/search_engine.py:130-132 | a ranked position whose score is not positive adds no hit, and the loop's facts carry over to the next rank |
| `Engine.TakeRank` | app/search_engine.py:133-145 | a ranked position with a positive score appends its candidate's hit; earlier hits score at least as much, and the loop's facts carry over to the next rank |
| `Engine.HitsComplete` | app/search_engine.py:125-145 | hits are distinct documents; a candidate left out scores no higher than any hit; a left-out candidate with a positive score means all `k` ranked positions became hits |
| `Engine.TopHits` | app/search_engine.py:125-145 | at most `min(top_k, candidate count)` hits, non-increasing scores, all > 0, each from a distinct candidate with its own fields; every candidate left out scores no higher than every hit, and if it scores > 0 the result is full |
| `Engine.LiftHits` | app/search_engine.py:125-145 | restates the hits over document ordinals: each hit is a distinct candidate with its own similarity as score, and no candidate left out scores higher; a positive left-out candidate means all `k` positions became hits |
| `Engine.AdmittedHits` | app/search_engine.py:112-145 | restates the hits over the whole corpus: each hit is a document the filter admits, with the filter's category when the filter is active, and no admitted document left out scores higher than a hit |
| `Engine.SearchEngine.Search` | app/search_engine.py:100-146 | returns [] for an empty or all-whitespace query, a query that normalises to "", or an active filter that no document's category matches; otherwise as `TopHits`, and every hit's category equals an active filter |

## Left out

- `_load_dataset` (app/search_engine.py:28-40): reading CSV and Excel files is I/O. The model starts from the loaded table, `Frame`. Its extension check and `ImportError` path are not modelled.
- The TF-IDF vectorizer fit and transform, and `cosine_similarity` (app/search_engine.py:25-26, 109-110): these are floating-point code inside scikit-learn. `Search` takes the similarity vector as input instead.
- The vectorizer's own `ValueError` on an empty vocabulary is not modelled. It arises, for example, when every row is dropped.
- Engine.SearchEngine.Search: a hit's `score` is the unrounded similarity. `round(score, 3)` (app/search_engine.py:140) is floating-point rounding and is not modelled. So `results[j].score > 0.0` holds of the unrounded similarity only. The source can report a score of 0.0 for a hit whose similarity lies in (0, 0.0005).
- Engine.PublishedDisplay: `pd.to_datetime` and `strftime` are the parameter `parseDate`, applied cell by cell. pandas infers one format for the whole column; that inference is not modelled.
- `nltk.download` and the NLTK English list (app/preprocessing.py:11-12): the network fetch is left out, and the stop words are a parameter.
- Preprocessing.CleanText: non-ASCII text is not modelled. `Lower` changes only `A`-`Z`, and `IsSpace` covers ASCII whitespace only. Python's Unicode lower-casing and Unicode whitespace are outside the model.
- `str()` of non-string cells (numbers, timestamps) is not modelled. Such cells are given as their rendering.
- The pandas frame is not rewritten column by column. The stripped text columns are not kept in `Doc`, because nothing after preparation reads them.
- Engine.RankTop: the order among equal scores is left open, as `argsort()[::-1]` leaves it.
- `top_k <= 0` is excluded by `requires topK >= 1`, since Python's negative slicing would apply there. The caller passes 1 to 20.
- All of app/app.py is not part of this model: the Streamlit page, CSS, HTML cards, `highlight_query`, image download, caching and the precision metric.
