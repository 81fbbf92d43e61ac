/** The ranking engine of QueryLens (`SearchEngine` in app/search_engine.py):
    corpus preparation from a loaded table, the category list, and query-time
    selection of the top-ranked documents.

    The table is what the file reader produced; reading it is outside the
    model. The TF-IDF index and the cosine similarity of a query against each
    document are computed by scikit-learn, also outside the model: `Search`
    receives that similarity vector, one entry per document. */
module Engine {
  import opened Wrappers
  import opened Preprocessing
  import opened StringOrder

  // ---------------------------------------------------------------------
  // The loaded table
  // ---------------------------------------------------------------------

  /** One table row: column name to cell. `None` is a missing cell (NaN,
      None, NaT); any other cell is given by its `str()` rendering. A column
      the row has no entry for reads as missing. */
  type Row = map<string, Option<string>>

  /** The loaded table: its column names and its rows, in file order. */
  datatype Frame = Frame(columns: set<string>, rows: seq<Row>)

  /** Construction raises a `ValueError` when no text column is present. */
  datatype EngineError = MissingTextColumns

  /** The text columns, in the priority order used to build `raw_text`. */
  const TextColumnOrder: seq<string> := ["full_content", "content", "description", "title"]

  const SnippetLength: nat := 500
  const TitleLength: nat := 80
  const UnknownCategory: string := "Unknown"
  /** The category value that means "no filter". */
  const AllCategories: string := "All"

  function Cell(row: Row, column: string): Option<string>
  {
    if column in row then row[column] else None
  }

  /** `fillna("").astype(str).str.strip()` applied to one cell. */
  function FilledStripped(row: Row, column: string): string
  {
    Strip(Cell(row, column).GetOr(""))
  }

  /** Python's `s[:n]`. */
  function Prefix(s: string, n: nat): (r: string)
  {
    if |s| <= n then s else s[..n]
  }

  function Min(a: int, b: int): int
  {
    if a <= b then a else b
  }

  /** The text columns present in the table, in priority order. */
  function TextColumns(columns: set<string>): seq<string>
  {
    (if "full_content" in columns then ["full_content"] else [])
    + (if "content" in columns then ["content"] else [])
    + (if "description" in columns then ["description"] else [])
    + (if "title" in columns then ["title"] else [])
  }

  /** The values that `raw_text` joins: the stripped cells of `textColumns`
      that are not empty, in order. */
  function NonEmptyValues(row: Row, textColumns: seq<string>): (vs: seq<string>)
    ensures forall i :: 0 <= i < |vs| ==> vs[i] != "" && IsStripped(vs[i])
  {
    if textColumns == [] then []
    else
      var v := FilledStripped(row, textColumns[0]);
      StripShape(Cell(row, textColumns[0]).GetOr(""));
      (if v != "" then [v] else []) + NonEmptyValues(row, textColumns[1..])
  }

  /** `" ".join(value for value in row[text_columns] if value)`. */
  function RawText(row: Row, textColumns: seq<string>): string
  {
    Join(NonEmptyValues(row, textColumns))
  }

  // ---------------------------------------------------------------------
  // Documents
  // ---------------------------------------------------------------------

  /** A prepared document: one row of the frame after `_prepare_dataframe`.
      Its ordinal is its position in the engine's document sequence. */
  datatype Doc = Doc(
    title: string,
    category: string,
    rawText: string,
    cleanText: string,
    snippet: string,
    url: string,
    imageUrl: string,
    publishedAt: string)

  /** The stripped source title, "" when the column is absent or the cell
      missing or blank. */
  function SourceTitle(columns: set<string>, row: Row): string
  {
    if "title" in columns then FilledStripped(row, "title") else ""
  }

  /** The stripped source category, "" when absent, missing or blank. */
  function SourceCategory(columns: set<string>, row: Row): string
  {
    if "category" in columns then FilledStripped(row, "category") else ""
  }

  /** `published_at_display`: the formatted timestamp, or "" when the column
      is absent, the cell is missing or the timestamp does not parse.
      `parseDate` stands for `pd.to_datetime(...).strftime("%Y-%m-%d %H:%M")`. */
  function PublishedDisplay(columns: set<string>, row: Row, parseDate: string -> Option<string>): string
  {
    if "published_at" in columns then
      match Cell(row, "published_at")
      case None => ""
      case Some(v) => parseDate(v).GetOr("")
    else ""
  }

  /** `image_url`: from `url_to_image` when that column exists, otherwise
      from `image_url`, otherwise "". */
  function ImageUrl(columns: set<string>, row: Row): string
  {
    if "url_to_image" in columns then FilledStripped(row, "url_to_image")
    else if "image_url" in columns then FilledStripped(row, "image_url")
    else ""
  }

  /** The derived columns of one row. */
  function MakeDoc(columns: set<string>, row: Row, textColumns: seq<string>,
                   stop: set<string>, parseDate: string -> Option<string>): Doc
  {
    var raw := RawText(row, textColumns);
    var snippet := Prefix(raw, SnippetLength);
    var title := SourceTitle(columns, row);
    var category := SourceCategory(columns, row);
    Doc(
      title := if title == "" then Prefix(snippet, TitleLength) else title,
      category := if category == "" then UnknownCategory else category,
      rawText := raw,
      cleanText := CleanText(Str(raw), stop),
      snippet := snippet,
      url := if "url" in columns then FilledStripped(row, "url") else "",
      imageUrl := ImageUrl(columns, row),
      publishedAt := PublishedDisplay(columns, row, parseDate))
  }

  /** Every row of the frame as a document, before any is dropped. */
  function AllDocs(frame: Frame, textColumns: seq<string>, stop: set<string>,
                   parseDate: string -> Option<string>): (ds: seq<Doc>)
    ensures |ds| == |frame.rows|
  {
    seq(|frame.rows|, i requires 0 <= i < |frame.rows| =>
      MakeDoc(frame.columns, frame.rows[i], textColumns, stop, parseDate))
  }

  /** `df[df["clean_text"] != ""].reset_index(drop=True)`. */
  function Retain(ds: seq<Doc>): seq<Doc>
  {
    if ds == [] then []
    else
      var last := ds[|ds| - 1];
      Retain(ds[..|ds| - 1]) + (if last.cleanText != "" then [last] else [])
  }

  /** One more row: `Retain` of a longer prefix extends `Retain` of the
      shorter one by that row, if its `clean_text` is not empty. */
  lemma RetainStep(ds: seq<Doc>, i: nat)
    requires i < |ds|
    ensures Retain(ds[..i + 1]) == Retain(ds[..i]) + (if ds[i].cleanText != "" then [ds[i]] else [])
  {
    assert ds[..i + 1][..i] == ds[..i];
  }

  /** The row numbers that `Retain` keeps, in order. */
  function KeptRows(ds: seq<Doc>): seq<nat>
  {
    if ds == [] then []
    else
      KeptRows(ds[..|ds| - 1]) + (if ds[|ds| - 1].cleanText != "" then [|ds| - 1] else [])
  }

  /** `_prepare_dataframe` as a whole: the error, or the prepared corpus. */
  function PrepareCorpus(frame: Frame, stop: set<string>, parseDate: string -> Option<string>)
    : Result<seq<Doc>, EngineError>
  {
    var textColumns := TextColumns(frame.columns);
    if textColumns == [] then Failure(MissingTextColumns)
    else Success(Retain(AllDocs(frame, textColumns, stop, parseDate)))
  }

  // ---------------------------------------------------------------------
  // Properties of corpus preparation
  // ---------------------------------------------------------------------

  /** Construction fails exactly when none of the four text columns exists. */
  lemma PrepareFailsIff(frame: Frame, stop: set<string>, parseDate: string -> Option<string>)
    ensures PrepareCorpus(frame, stop, parseDate).Failure? <==>
      forall c :: c in TextColumnOrder ==> c !in frame.columns
    ensures PrepareCorpus(frame, stop, parseDate).Failure? ==>
      PrepareCorpus(frame, stop, parseDate).error == MissingTextColumns
  {
    if TextColumns(frame.columns) == [] {
      forall c | c in TextColumnOrder ensures c !in frame.columns {
        assert c == "full_content" || c == "content" || c == "description" || c == "title";
      }
    }
  }

  /** `raw_text` has no whitespace at either end, is empty exactly when every
      text cell is missing or blank, and is the one stripped value when only
      one text column exists. */
  lemma {:induction false} RawTextProperties(row: Row, textColumns: seq<string>)
    ensures IsStripped(RawText(row, textColumns))
    ensures RawText(row, textColumns) == "" <==>
      forall i :: 0 <= i < |textColumns| ==> FilledStripped(row, textColumns[i]) == ""
    ensures |textColumns| == 1 ==> RawText(row, textColumns) == FilledStripped(row, textColumns[0])
  {
    var vs := NonEmptyValues(row, textColumns);
    JoinStripped(vs);
    NonEmptyValuesEmptyIff(row, textColumns);
    if |textColumns| == 1 {
      assert textColumns[1..] == [];
    }
  }

  lemma {:induction false} NonEmptyValuesEmptyIff(row: Row, textColumns: seq<string>)
    ensures NonEmptyValues(row, textColumns) == [] <==>
      forall i :: 0 <= i < |textColumns| ==> FilledStripped(row, textColumns[i]) == ""
  {
    if textColumns != [] {
      NonEmptyValuesEmptyIff(row, textColumns[1..]);
      assert forall i :: 1 <= i < |textColumns| ==> textColumns[i] == textColumns[1..][i - 1];
    }
  }

  /** The derived fields of a document: the snippet is the first 500
      characters of `raw_text`; the title is the source title, or else the
      first 80 characters of `raw_text`, and is never empty for a document
      that is kept; the category is the source category or "Unknown", never
      empty and without surrounding whitespace. */
  lemma DocFields(columns: set<string>, row: Row, textColumns: seq<string>,
                  stop: set<string>, parseDate: string -> Option<string>)
    ensures var d := MakeDoc(columns, row, textColumns, stop, parseDate);
      && d.rawText == RawText(row, textColumns)
      && d.cleanText == CleanText(Str(d.rawText), stop)
      && |d.snippet| == Min(|d.rawText|, SnippetLength)
      && d.snippet == d.rawText[..|d.snippet|]
      && (SourceTitle(columns, row) != "" ==> d.title == SourceTitle(columns, row))
      && (SourceTitle(columns, row) == "" ==>
            |d.title| == Min(|d.rawText|, TitleLength) && d.title == d.rawText[..|d.title|])
      && (d.cleanText != "" ==> d.title != "")
      && d.category != "" && IsStripped(d.category)
      && (SourceCategory(columns, row) != "" ==> d.category == SourceCategory(columns, row))
      && (SourceCategory(columns, row) == "" ==> d.category == UnknownCategory)
  {
    var d := MakeDoc(columns, row, textColumns, stop, parseDate);
    if d.cleanText != "" && d.rawText == "" {
      MissingCleansToEmpty(Str(d.rawText), stop);
    }
    if "category" in columns {
      StripShape(Cell(row, "category").GetOr(""));
    }
  }

  /** Dropping the documents with empty `clean_text` keeps the others in
      their original order and numbers them 0, 1, 2, ... by position:
      document `k` of the result is row `KeptRows(ds)[k]`, the kept row
      numbers increase, and a row is kept exactly when its `clean_text` is
      not empty. */
  lemma {:induction false} RetainKeepsOrder(ds: seq<Doc>)
    ensures |Retain(ds)| == |KeptRows(ds)|
    ensures forall k :: 0 <= k < |KeptRows(ds)| ==>
      KeptRows(ds)[k] < |ds| && Retain(ds)[k] == ds[KeptRows(ds)[k]]
    ensures forall k, l :: 0 <= k < l < |KeptRows(ds)| ==> KeptRows(ds)[k] < KeptRows(ds)[l]
    ensures forall p :: 0 <= p < |ds| ==> (p in KeptRows(ds) <==> ds[p].cleanText != "")
  {
    if ds != [] {
      var n := |ds| - 1;
      var init := ds[..n];
      RetainKeepsOrder(init);
      var before := KeptRows(init);
      forall k | 0 <= k < |before| ensures before[k] < n && Retain(init)[k] == ds[before[k]] {
        assert ds[before[k]] == init[before[k]];
      }
      forall p | 0 <= p < n ensures p in before <==> ds[p].cleanText != "" {
        assert ds[p] == init[p];
      }
      if ds[n].cleanText != "" {
        assert KeptRows(ds) == before + [n];
        assert Retain(ds) == Retain(init) + [ds[n]];
      } else {
        assert KeptRows(ds) == before;
        assert Retain(ds) == Retain(init);
      }
    }
  }

  /** Every document of a prepared corpus has non-empty `clean_text`, a
      non-empty title and a non-empty category. */
  lemma CorpusInvariant(frame: Frame, stop: set<string>, parseDate: string -> Option<string>)
    requires PrepareCorpus(frame, stop, parseDate).Success?
    ensures forall d :: d in PrepareCorpus(frame, stop, parseDate).value ==>
      d.cleanText != "" && d.title != "" && d.category != ""
  {
    var all := AllDocs(frame, TextColumns(frame.columns), stop, parseDate);
    RetainKeepsOrder(all);
    forall d | d in Retain(all) ensures d.cleanText != "" && d.title != "" && d.category != "" {
      var k :| 0 <= k < |Retain(all)| && Retain(all)[k] == d;
      var p := KeptRows(all)[k];
      DocFields(frame.columns, frame.rows[p], TextColumns(frame.columns), stop, parseDate);
    }
  }

  // ---------------------------------------------------------------------
  // Ranking
  // ---------------------------------------------------------------------

  /** `ranked` is a valid `similarities.argsort()[::-1][:k]`: `k` distinct
      positions, scores non-increasing along it, and no position left out
      scoring higher than any position taken. The order among equal scores
      is not fixed. */
  predicate IsTopRanking(sims: seq<real>, k: nat, ranked: seq<nat>)
  {
    && |ranked| == k
    && (forall j :: 0 <= j < k ==> ranked[j] < |sims|)
    && (forall j, l :: 0 <= j < l < k ==> ranked[j] != ranked[l])
    && (forall j, l :: 0 <= j < l < k ==> sims[ranked[j]] >= sims[ranked[l]])
    && (forall p, j :: 0 <= p < |sims| && p !in ranked && 0 <= j < k ==> sims[p] <= sims[ranked[j]])
  }

  /** The first `k` positions of a descending ranking of `sims`, by
      repeatedly taking a highest-scoring position not yet taken. */
  method RankTop(sims: seq<real>, k: nat) returns (ranked: seq<nat>)
    requires k <= |sims|
    ensures IsTopRanking(sims, k, ranked)
  {
    var n := |sims|;
    ranked := [];
    var remaining := Below(n);
    while |ranked| < k
      invariant |ranked| <= k
      invariant |remaining| + |ranked| == n
      invariant forall p: nat :: p in remaining <==> p < n && p !in ranked
      invariant forall j :: 0 <= j < |ranked| ==> ranked[j] < n
      invariant forall j, l :: 0 <= j < l < |ranked| ==> ranked[j] != ranked[l]
      invariant forall j, l :: 0 <= j < l < |ranked| ==> sims[ranked[j]] >= sims[ranked[l]]
      invariant forall p: nat, j :: p in remaining && 0 <= j < |ranked| ==> sims[p] <= sims[ranked[j]]
    {
      assert |remaining| > 0;
      var best := HighestRemaining(sims, remaining);
      ranked := ranked + [best];
      remaining := remaining - {best};
    }
  }

  /** A position in `remaining` whose score no other position in
      `remaining` exceeds, found by a scan that moves its pick only to a
      strictly higher score. Which of several equal scores it returns is
      not specified. */
  method HighestRemaining(sims: seq<real>, remaining: set<nat>) returns (best: nat)
    requires remaining != {}
    requires forall p: nat :: p in remaining ==> p < |sims|
    ensures best in remaining
    ensures forall p: nat :: p in remaining ==> sims[p] <= sims[best]
  {
    best :| best in remaining;
    var q := 0;
    while q < |sims|
      invariant 0 <= q <= |sims|
      invariant best in remaining
      invariant forall p: nat :: p in remaining && p < q ==> sims[p] <= sims[best]
    {
      if q in remaining && sims[q] > sims[best] {
        best := q;
      }
      q := q + 1;
    }
  }

  /** The positions `0 .. n-1`. */
  function Below(n: nat): (r: set<nat>)
    ensures |r| == n
    ensures forall p: nat :: p in r <==> p < n
  {
    if n == 0 then {} else Below(n - 1) + {n - 1}
  }

  // ---------------------------------------------------------------------
  // Category filter and results
  // ---------------------------------------------------------------------

  /** `category and category != "All"`. */
  predicate FilterActive(category: Option<string>)
  {
    category.Some? && category.value != "" && category.value != AllCategories
  }

  predicate IsCandidate(d: Doc, category: Option<string>)
  {
    !FilterActive(category) || d.category == category.value
  }

  /** `doc_indices`: the ordinals of the documents the filter admits, in
      increasing order. */
  function Candidates(docs: seq<Doc>, category: Option<string>): (r: seq<nat>)
    ensures forall j :: 0 <= j < |r| ==> r[j] < |docs| && IsCandidate(docs[r[j]], category)
    ensures forall j, l :: 0 <= j < l < |r| ==> r[j] < r[l]
    ensures forall i :: 0 <= i < |docs| && IsCandidate(docs[i], category) ==> i in r
  {
    if docs == [] then []
    else
      var n := |docs| - 1;
      Candidates(docs[..n], category) + (if IsCandidate(docs[n], category) then [n] else [])
  }

  /** `mask.any()` is false exactly when no document is admitted. */
  lemma CandidatesEmptyIff(docs: seq<Doc>, category: Option<string>)
    ensures Candidates(docs, category) == [] <==>
      forall i :: 0 <= i < |docs| ==> !IsCandidate(docs[i], category)
  {
    var r := Candidates(docs, category);
    if r != [] {
      assert r[0] < |docs| && IsCandidate(docs[r[0]], category);
    }
  }

  /** One search hit; `score` is the similarity before rounding. */
  datatype SearchResult = SearchResult(
    title: string,
    category: string,
    text: string,
    score: real,
    url: string,
    publishedAt: string,
    imageUrl: string)

  /** The hit for document `d` scored `score`: every field from `d`. */
  function ResultOf(d: Doc, score: real): SearchResult
  {
    SearchResult(d.title, d.category, d.snippet, score, d.url, d.publishedAt, d.imageUrl)
  }

  /** What the loop over `ranked_positions` has produced after the first
      `t` ranks: one hit per rank below `t` with a positive score, in rank
      order, each the hit of the candidate at that rank. */
  predicate HitsSoFar(docs: seq<Doc>, candidates: seq<nat>, sims: seq<real>, ranked: seq<nat>, t: nat,
                      results: seq<SearchResult>, picked: seq<nat>, positions: seq<nat>)
    requires forall j :: 0 <= j < |candidates| ==> candidates[j] < |docs|
    requires |sims| == |candidates|
    requires t <= |ranked|
    requires forall u :: 0 <= u < |ranked| ==> ranked[u] < |sims|
  {
    && |picked| == |results| == |positions| <= t
    && (forall j :: 0 <= j < |positions| ==> positions[j] < t)
    && (forall j, l :: 0 <= j < l < |positions| ==> positions[j] < positions[l])
    && (forall j :: 0 <= j < |results| ==>
          && picked[j] == candidates[ranked[positions[j]]]
          && results[j] == ResultOf(docs[picked[j]], sims[ranked[positions[j]]])
          && results[j].score > 0.0)
    && (forall j, l :: 0 <= j < l < |results| ==> results[j].score >= results[l].score)
    && (forall u :: 0 <= u < t && sims[ranked[u]] > 0.0 ==> candidates[ranked[u]] in picked)
    && ((forall u :: 0 <= u < t ==> sims[ranked[u]] > 0.0) ==> |results| == t)
  }

  /** A rank whose score is not positive adds no hit. */
  lemma SkipRank(docs: seq<Doc>, candidates: seq<nat>, sims: seq<real>, ranked: seq<nat>, t: nat,
                 results: seq<SearchResult>, picked: seq<nat>, positions: seq<nat>)
    requires forall j :: 0 <= j < |candidates| ==> candidates[j] < |docs|
    requires |sims| == |candidates|
    requires t < |ranked|
    requires forall u :: 0 <= u < |ranked| ==> ranked[u] < |sims|
    requires HitsSoFar(docs, candidates, sims, ranked, t, results, picked, positions)
    requires sims[ranked[t]] <= 0.0
    ensures HitsSoFar(docs, candidates, sims, ranked, t + 1, results, picked, positions)
  {
  }

  /** A rank whose score is positive adds the hit of its candidate; ranks
      taken earlier score at least as much. */
  lemma TakeRank(docs: seq<Doc>, candidates: seq<nat>, sims: seq<real>, ranked: seq<nat>, t: nat,
                 results: seq<SearchResult>, picked: seq<nat>, positions: seq<nat>)
    requires forall j :: 0 <= j < |candidates| ==> candidates[j] < |docs|
    requires |sims| == |candidates|
    requires t < |ranked|
    requires forall u :: 0 <= u < |ranked| ==> ranked[u] < |sims|
    requires forall u, v :: 0 <= u < v < |ranked| ==> sims[ranked[u]] >= sims[ranked[v]]
    requires HitsSoFar(docs, candidates, sims, ranked, t, results, picked, positions)
    requires sims[ranked[t]] > 0.0
    ensures HitsSoFar(docs, candidates, sims, ranked, t + 1,
                      results + [ResultOf(docs[candidates[ranked[t]]], sims[ranked[t]])],
                      picked + [candidates[ranked[t]]], positions + [t])
  {
    var score := sims[ranked[t]];
    var idx := candidates[ranked[t]];
    var results', picked', positions' := results + [ResultOf(docs[idx], score)], picked + [idx], positions + [t];
    var m := |results|;
    forall j | 0 <= j < |positions'| ensures positions'[j] < t + 1 {
      if j < m { assert positions'[j] == positions[j]; }
    }
    forall j, l | 0 <= j < l < |positions'| ensures positions'[j] < positions'[l] {
      assert positions'[j] == positions[j];
      if l < m { assert positions'[l] == positions[l]; }
    }
    forall j | 0 <= j < |results'|
      ensures && picked'[j] == candidates[ranked[positions'[j]]]
              && results'[j] == ResultOf(docs[picked'[j]], sims[ranked[positions'[j]]])
              && results'[j].score > 0.0
    {
      if j < m {
        assert results'[j] == results[j] && picked'[j] == picked[j] && positions'[j] == positions[j];
      }
    }
    forall j, l | 0 <= j < l < |results'| ensures results'[j].score >= results'[l].score {
      assert results'[j] == results[j];
      if l < m {
        assert results'[l] == results[l];
      } else {
        assert positions[j] < t && results[j].score == sims[ranked[positions[j]]];
      }
    }
    forall u | 0 <= u < t + 1 && sims[ranked[u]] > 0.0 ensures candidates[ranked[u]] in picked' {
      if u < t {
        assert candidates[ranked[u]] in picked;
      } else {
        assert picked'[m] == idx;
      }
    }
    assert HitsSoFar(docs, candidates, sims, ranked, t + 1, results', picked', positions');
  }

  /** The loop over `ranked_positions`: skip scores <= 0, otherwise emit
      the hit for the candidate at that position. `positions[j]` is the rank
      that hit `j` comes from. */
  method CollectHits(docs: seq<Doc>, candidates: seq<nat>, sims: seq<real>, ranked: seq<nat>, k: nat)
    returns (results: seq<SearchResult>, ghost picked: seq<nat>, ghost positions: seq<nat>)
    requires forall j :: 0 <= j < |candidates| ==> candidates[j] < |docs|
    requires |sims| == |candidates|
    requires IsTopRanking(sims, k, ranked)
    ensures |picked| == |results| == |positions| <= k
    ensures forall j :: 0 <= j < |positions| ==> positions[j] < k
    ensures forall j, l :: 0 <= j < l < |positions| ==> positions[j] < positions[l]
    ensures forall j :: 0 <= j < |results| ==>
      && picked[j] == candidates[ranked[positions[j]]]
      && results[j] == ResultOf(docs[picked[j]], sims[ranked[positions[j]]])
      && results[j].score > 0.0
    ensures forall j, l :: 0 <= j < l < |results| ==> results[j].score >= results[l].score
    ensures forall u :: 0 <= u < k && sims[ranked[u]] > 0.0 ==> candidates[ranked[u]] in picked
    ensures (forall u :: 0 <= u < k ==> sims[ranked[u]] > 0.0) ==> |results| == k
  {
    results, picked, positions := [], [], [];
    var t := 0;
    while t < k
      invariant 0 <= t <= k
      invariant HitsSoFar(docs, candidates, sims, ranked, t, results, picked, positions)
    {
      var position := ranked[t];
      var score := sims[position];
      if score > 0.0 {
        TakeRank(docs, candidates, sims, ranked, t, results, picked, positions);
        var idx := candidates[position];
        results := results + [ResultOf(docs[idx], score)];
        picked := picked + [idx];
        positions := positions + [t];
      } else {
        SkipRank(docs, candidates, sims, ranked, t, results, picked, positions);
      }
      t := t + 1;
    }
  }

  /** The hits are distinct documents, and a candidate left out scores no
      higher than any hit; a left-out candidate with a positive score means
      all `k` ranked positions became hits. */
  lemma HitsComplete(candidates: seq<nat>, sims: seq<real>, k: nat, ranked: seq<nat>,
                     results: seq<SearchResult>, picked: seq<nat>, positions: seq<nat>)
    requires forall j, l :: 0 <= j < l < |candidates| ==> candidates[j] < candidates[l]
    requires |sims| == |candidates|
    requires IsTopRanking(sims, k, ranked)
    requires |picked| == |results| == |positions|
    requires forall j :: 0 <= j < |positions| ==> positions[j] < k
    requires forall j, l :: 0 <= j < l < |positions| ==> positions[j] < positions[l]
    requires forall j :: 0 <= j < |results| ==>
      picked[j] == candidates[ranked[positions[j]]] && results[j].score == sims[ranked[positions[j]]]
      && results[j].score > 0.0
    requires forall u :: 0 <= u < k && sims[ranked[u]] > 0.0 ==> candidates[ranked[u]] in picked
    requires (forall u :: 0 <= u < k ==> sims[ranked[u]] > 0.0) ==> |results| == k
    ensures forall j, l :: 0 <= j < l < |results| ==> picked[j] != picked[l]
    ensures forall p :: 0 <= p < |candidates| && candidates[p] !in picked ==>
      && (forall j :: 0 <= j < |results| ==> sims[p] <= results[j].score)
      && (sims[p] > 0.0 ==> |results| == k)
  {
    forall j, l | 0 <= j < l < |results| ensures picked[j] != picked[l] {
      assert ranked[positions[j]] != ranked[positions[l]];
    }
    forall p | 0 <= p < |candidates| && candidates[p] !in picked
      ensures && (forall j :: 0 <= j < |results| ==> sims[p] <= results[j].score)
              && (sims[p] > 0.0 ==> |results| == k)
    {
      if p in ranked {
        var u :| 0 <= u < k && ranked[u] == p;
        assert sims[p] <= 0.0;
      } else if sims[p] > 0.0 {
        assert forall u :: 0 <= u < k ==> sims[ranked[u]] > 0.0;
      }
    }
  }

  /** `similarities[mask]`: the score of each candidate, by candidate
      position. */
  function Gather(similarities: seq<real>, candidates: seq<nat>): (sims: seq<real>)
    requires forall j :: 0 <= j < |candidates| ==> candidates[j] < |similarities|
    ensures |sims| == |candidates|
    ensures forall j :: 0 <= j < |candidates| ==> sims[j] == similarities[candidates[j]]
  {
    seq(|candidates|, j requires 0 <= j < |candidates| => similarities[candidates[j]])
  }

  /** The hits `CollectHits` gathers over candidate positions, restated over
      document ordinals: each hit is a candidate scored by its own
      similarity, and no candidate left out scores higher. */
  lemma LiftHits(docs: seq<Doc>, candidates: seq<nat>, similarities: seq<real>, sims: seq<real>,
                 k: nat, ranked: seq<nat>, results: seq<SearchResult>, picked: seq<nat>, positions: seq<nat>)
    requires |similarities| == |docs|
    requires forall j :: 0 <= j < |candidates| ==> candidates[j] < |docs|
    requires forall j, l :: 0 <= j < l < |candidates| ==> candidates[j] < candidates[l]
    requires sims == Gather(similarities, candidates)
    requires IsTopRanking(sims, k, ranked)
    requires |picked| == |results| == |positions| <= k
    requires forall j :: 0 <= j < |positions| ==> positions[j] < k
    requires forall j, l :: 0 <= j < l < |positions| ==> positions[j] < positions[l]
    requires forall j :: 0 <= j < |results| ==>
      && picked[j] == candidates[ranked[positions[j]]]
      && results[j] == ResultOf(docs[picked[j]], sims[ranked[positions[j]]])
      && results[j].score > 0.0
    requires forall u :: 0 <= u < k && sims[ranked[u]] > 0.0 ==> candidates[ranked[u]] in picked
    requires (forall u :: 0 <= u < k ==> sims[ranked[u]] > 0.0) ==> |results| == k
    ensures forall j :: 0 <= j < |results| ==>
      && picked[j] in candidates
      && results[j] == ResultOf(docs[picked[j]], similarities[picked[j]])
    ensures forall j, l :: 0 <= j < l < |results| ==> picked[j] != picked[l]
    ensures forall i :: i in candidates && i !in picked ==>
      && (forall j :: 0 <= j < |results| ==> similarities[i] <= results[j].score)
      && (similarities[i] > 0.0 ==> |results| == k)
  {
    forall j | 0 <= j < |results|
      ensures picked[j] in candidates && results[j] == ResultOf(docs[picked[j]], similarities[picked[j]])
    {
      var u := ranked[positions[j]];
      assert u < |candidates| && sims[u] == similarities[candidates[u]];
    }
    forall j | 0 <= j < |results|
      ensures picked[j] == candidates[ranked[positions[j]]] && results[j].score == sims[ranked[positions[j]]]
    {
    }
    HitsComplete(candidates, sims, k, ranked, results, picked, positions);
    forall i | i in candidates && i !in picked
      ensures && (forall j :: 0 <= j < |results| ==> similarities[i] <= results[j].score)
              && (similarities[i] > 0.0 ==> |results| == k)
    {
      var p :| 0 <= p < |candidates| && candidates[p] == i;
      assert sims[p] == similarities[i];
    }
  }

  /** Lines 125-145 of `search`: rank the candidates by similarity, cut to
      `min(top_k, len(doc_indices))`, and emit a hit for each ranked
      candidate whose score is positive. `picked[j]` is the ordinal of the
      document behind hit `j`. */
  method TopHits(docs: seq<Doc>, candidates: seq<nat>, similarities: seq<real>, topK: int)
    returns (results: seq<SearchResult>, ghost picked: seq<nat>)
    requires topK >= 1
    requires |similarities| == |docs|
    requires forall j :: 0 <= j < |candidates| ==> candidates[j] < |docs|
    requires forall j, l :: 0 <= j < l < |candidates| ==> candidates[j] < candidates[l]
    ensures |results| <= Min(topK, |candidates|)
    ensures |picked| == |results|
    ensures forall j :: 0 <= j < |results| ==>
      && picked[j] in candidates
      && results[j] == ResultOf(docs[picked[j]], similarities[picked[j]])
      && results[j].score > 0.0
    ensures forall j, l :: 0 <= j < l < |results| ==> picked[j] != picked[l]
    ensures forall j, l :: 0 <= j < l < |results| ==> results[j].score >= results[l].score
    ensures forall i :: i in candidates && i !in picked ==>
      && (forall j :: 0 <= j < |results| ==> similarities[i] <= results[j].score)
      && (similarities[i] > 0.0 ==> |results| == Min(topK, |candidates|))
  {
    var k := Min(topK, |candidates|);
    var sims := Gather(similarities, candidates);
    var ranked := RankTop(sims, k);
    ghost var positions;
    results, picked, positions := CollectHits(docs, candidates, sims, ranked, k);
    LiftHits(docs, candidates, similarities, sims, k, ranked, results, picked, positions);
  }

  /** The hits of `TopHits` over `Candidates(docs, category)`, restated
      over the whole corpus: each is an admitted document, and no admitted
      document left out scores higher. */
  lemma AdmittedHits(docs: seq<Doc>, category: Option<string>, similarities: seq<real>, topK: int,
                     results: seq<SearchResult>, picked: seq<nat>)
    requires |similarities| == |docs|
    requires |picked| == |results|
    requires forall j :: 0 <= j < |results| ==>
      && picked[j] in Candidates(docs, category)
      && results[j] == ResultOf(docs[picked[j]], similarities[picked[j]])
    requires forall i :: i in Candidates(docs, category) && i !in picked ==>
      && (forall j :: 0 <= j < |results| ==> similarities[i] <= results[j].score)
      && (similarities[i] > 0.0 ==> |results| == Min(topK, |Candidates(docs, category)|))
    ensures forall j :: 0 <= j < |results| ==>
      && picked[j] < |docs|
      && IsCandidate(docs[picked[j]], category)
      && (FilterActive(category) ==> results[j].category == category.value)
    ensures forall i :: 0 <= i < |docs| && IsCandidate(docs[i], category) && i !in picked ==>
      && (forall j :: 0 <= j < |results| ==> similarities[i] <= results[j].score)
      && (similarities[i] > 0.0 ==> |results| == Min(topK, |Candidates(docs, category)|))
  {
    var candidates := Candidates(docs, category);
    forall j | 0 <= j < |results|
      ensures picked[j] < |docs| && IsCandidate(docs[picked[j]], category)
    {
      var p :| 0 <= p < |candidates| && candidates[p] == picked[j];
    }
  }

  // ---------------------------------------------------------------------
  // The engine
  // ---------------------------------------------------------------------

  class SearchEngine {
    /** The stop-word list the normaliser uses, for documents and queries. */
    const stopWords: set<string>
    /** The prepared corpus; document `i` has ordinal `i`. */
    const docs: seq<Doc>

    /** `__init__` after the table is loaded: `_prepare_dataframe` row by row,
        keeping the rows whose `clean_text` is not empty. */
    constructor (frame: Frame, stop: set<string>, parseDate: string -> Option<string>)
      requires TextColumns(frame.columns) != []
      ensures stopWords == stop
      ensures PrepareCorpus(frame, stop, parseDate) == Success(docs)
    {
      var textColumns := TextColumns(frame.columns);
      ghost var all := AllDocs(frame, textColumns, stop, parseDate);
      var kept: seq<Doc> := [];
      var i := 0;
      while i < |frame.rows|
        invariant 0 <= i <= |frame.rows|
        invariant kept == Retain(all[..i])
      {
        var d := MakeDoc(frame.columns, frame.rows[i], textColumns, stop, parseDate);
        assert d == all[i];
        RetainStep(all, i);
        if d.cleanText != "" {
          kept := kept + [d];
        }
        i := i + 1;
      }
      assert all[..i] == all;
      stopWords := stop;
      docs := kept;
    }

    /** Builds an engine from a loaded table, or reports the missing text
        columns. */
    static method Build(frame: Frame, stop: set<string>, parseDate: string -> Option<string>)
      returns (r: Result<SearchEngine, EngineError>)
      ensures r.Failure? <==> PrepareCorpus(frame, stop, parseDate).Failure?
      ensures r.Failure? ==> PrepareCorpus(frame, stop, parseDate) == Failure(r.error)
      ensures r.Success? ==>
        fresh(r.value) && r.value.stopWords == stop
        && PrepareCorpus(frame, stop, parseDate) == Success(r.value.docs)
    {
      if TextColumns(frame.columns) == [] {
        return Failure(MissingTextColumns);
      }
      var engine := new SearchEngine(frame, stop, parseDate);
      return Success(engine);
    }

    /** `get_categories`: the distinct non-empty categories, sorted. */
    function GetCategories(): (r: seq<string>)
      ensures StrictlySorted(r)
      ensures forall c :: c in r <==> c != "" && exists i :: 0 <= i < |docs| && docs[i].category == c
    {
      var cats := seq(|docs|, i requires 0 <= i < |docs| => docs[i].category);
      assert forall c :: c in cats <==> exists i :: 0 <= i < |docs| && docs[i].category == c by {
        forall c | c in cats ensures exists i :: 0 <= i < |docs| && docs[i].category == c {
          var i :| 0 <= i < |cats| && cats[i] == c;
        }
        forall i | 0 <= i < |docs| ensures docs[i].category in cats {
          assert cats[i] == docs[i].category;
        }
      }
      DistinctSorted(cats)
    }

    /** `search(query, top_k, category)`, given the cosine similarity of the
        query to every document. Returns the hits and, as a ghost, the
        ordinal of the document behind each hit. */
    method Search(query: string, topK: int, category: Option<string>, similarities: seq<real>)
      returns (results: seq<SearchResult>, ghost picked: seq<nat>)
      requires topK >= 1
      requires |similarities| == |docs|
      // the early exits
      ensures query == "" ==> results == []
      ensures (forall i :: 0 <= i < |query| ==> IsSpace(query[i])) ==> results == []
      ensures CleanText(Str(query), stopWords) == "" ==> results == []
      ensures FilterActive(category) && (forall i :: 0 <= i < |docs| ==> docs[i].category != category.value)
        ==> results == []
      // the cut
      ensures |results| <= Min(topK, |Candidates(docs, category)|)
      // every hit is one admitted document, with its own fields and a positive score
      ensures |picked| == |results|
      ensures forall j :: 0 <= j < |results| ==>
        && picked[j] < |docs|
        && IsCandidate(docs[picked[j]], category)
        && results[j] == ResultOf(docs[picked[j]], similarities[picked[j]])
        && results[j].score > 0.0
        && (FilterActive(category) ==> results[j].category == category.value)
      ensures forall j, l :: 0 <= j < l < |results| ==> picked[j] != picked[l]
      // ranking order
      ensures forall j, l :: 0 <= j < l < |results| ==> results[j].score >= results[l].score
      // nothing better was left out
      ensures CleanText(Str(query), stopWords) != "" ==>
        forall i :: 0 <= i < |docs| && IsCandidate(docs[i], category) && i !in picked ==>
          && (forall j :: 0 <= j < |results| ==> similarities[i] <= results[j].score)
          && (similarities[i] > 0.0 ==> |results| == Min(topK, |Candidates(docs, category)|))
    {
      results, picked := [], [];
      BlankQueryCleansToEmpty(query, stopWords);
      if query == "" {
        return;
      }
      var queryClean := CleanText(Str(query), stopWords);
      if queryClean == "" {
        return;
      }
      // The query vector and its cosine similarities are `similarities`.
      var candidates := Candidates(docs, category);
      CandidatesEmptyIff(docs, category);
      if FilterActive(category) && candidates == [] {
        return;
      }
      if candidates == [] {
        return;
      }
      results, picked := TopHits(docs, candidates, similarities, topK);
      AdmittedHits(docs, category, similarities, topK, results, picked);
    }
  }
}
