/** Importing memories from NDJSON (src/api.rs:1381-1472), with the embeddings put back in request
    order (src/embeddings.rs:63-84). */
module Import {
  import opened Common
  import opened Sorting

  type Vector = seq<real>

  // ---- Embeddings ----------------------------------------------------------------------

  /** One item of the provider's answer: the index of the text it is for, and its vector. */
  datatype Embedded = Embedded(index: nat, vector: Vector)

  predicate NoLater(a: Embedded, b: Embedded) {
    a.index <= b.index
  }

  /** What an unstable sort by index may return: ties fall either way. */
  ghost predicate MayReturn(data: seq<Embedded>, indexed: seq<Embedded>) {
    multiset(indexed) == multiset(data) && Sorted(NoLater, indexed)
  }

  /** Each item stands where its index says. */
  ghost predicate Aligned(indexed: seq<Embedded>) {
    forall i :: 0 <= i < |indexed| ==> indexed[i].index == i
  }

  ghost predicate IndicesAreDense(data: seq<Embedded>) {
    && (forall e :: e in data ==> e.index < |data|)
    && (forall i, k :: 0 <= i < k < |data| ==> data[i].index != data[k].index)
  }

  /** Sorting restores the request order exactly when the indices are 0, 1, ... without a repeat or
      a gap; otherwise vectors go to the wrong texts. */
  lemma AlignedIff(data: seq<Embedded>, indexed: seq<Embedded>)
    requires MayReturn(data, indexed)
    ensures Aligned(indexed) <==> IndicesAreDense(data)
  {
    SameLength(indexed, data);
    SameMembers(indexed, data);
    if Aligned(indexed) {
      forall e | e in data ensures e.index < |data| {
        var i :| 0 <= i < |indexed| && indexed[i] == e;
      }
      DistinctByCount(indexed);
      DistinctByCount(data);
      forall i, k | 0 <= i < k < |data| ensures data[i].index != data[k].index {
        assert data[i] in indexed && data[k] in indexed;
        var i' :| 0 <= i' < |indexed| && indexed[i'] == data[i];
        var k' :| 0 <= k' < |indexed| && indexed[k'] == data[k];
      }
    }
    if IndicesAreDense(data) {
      DistinctByCount(data);
      DistinctByCount(indexed);
      forall i, k | 0 <= i < k < |indexed| ensures indexed[i].index != indexed[k].index {
        assert indexed[i] in data && indexed[k] in data;
      }
      AscendingFrom(indexed);
    }
  }

  lemma AscendingFrom(indexed: seq<Embedded>)
    requires Sorted(NoLater, indexed) && (forall e :: e in indexed ==> e.index < |indexed|)
    requires forall i, k :: 0 <= i < k < |indexed| ==> indexed[i].index != indexed[k].index
    ensures Aligned(indexed)
  {
    assert forall i :: 0 <= i < |indexed| - 1 ==> indexed[i].index < indexed[i + 1].index by {
      assert forall i :: 0 <= i < |indexed| - 1 ==> NoLater(indexed[i], indexed[i + 1]);
    }
    forall i | 0 <= i < |indexed| ensures indexed[i].index == i {
      AtLeast(indexed, i);
      AtMostFrom(indexed, i);
    }
  }

  lemma {:induction false} AtLeast(indexed: seq<Embedded>, i: nat)
    requires i < |indexed| && forall k :: 0 <= k < |indexed| - 1 ==> indexed[k].index < indexed[k + 1].index
    ensures indexed[i].index >= i
  {
    if i > 0 { AtLeast(indexed, i - 1); }
  }

  lemma {:induction false} AtMostFrom(indexed: seq<Embedded>, i: nat)
    requires i < |indexed| && forall k :: 0 <= k < |indexed| - 1 ==> indexed[k].index < indexed[k + 1].index
    requires forall e :: e in indexed ==> e.index < |indexed|
    ensures indexed[i].index <= i
    decreases |indexed| - i
  {
    assert indexed[i] in indexed;
    if i < |indexed| - 1 { AtMostFrom(indexed, i + 1); }
  }

  function Vectors(indexed: seq<Embedded>): seq<Vector> {
    seq(|indexed|, i requires 0 <= i < |indexed| => indexed[i].vector)
  }

  method EmbedTexts(data: seq<Embedded>) returns (vectors: seq<Vector>)
    ensures exists indexed :: MayReturn(data, indexed) && vectors == Vectors(indexed)
  {
    var indexed := Sort(NoLater, data);
    SortKeeps(NoLater, data);
    SortSorts(NoLater, data);
    assert MayReturn(data, indexed);
    vectors := Vectors(indexed);
  }

  /** A provider that answers each text once, naming it by its index, is heard in request order:
      every text gets its own vector. */
  lemma EachTextItsOwn(contents: seq<string>, embed: string -> Vector, data: seq<Embedded>, indexed: seq<Embedded>)
    requires MayReturn(data, indexed) && IndicesAreDense(data) && |data| == |contents|
    requires forall e :: e in data ==> e.index < |contents| && e.vector == embed(contents[e.index])
    ensures |Vectors(indexed)| == |contents|
    ensures forall i :: 0 <= i < |contents| ==> Vectors(indexed)[i] == embed(contents[i])
  {
    AlignedIff(data, indexed);
    SameLength(indexed, data);
    SameMembers(indexed, data);
    forall i | 0 <= i < |contents| ensures Vectors(indexed)[i] == embed(contents[i]) {
      assert indexed[i] in data;
    }
  }

  // ---- The rows ------------------------------------------------------------------------

  /** A parsed line: the columns an import reads, each present if it has the type expected. */
  datatype Row = Row(content: Option<string>, memoryType: Option<string>, confidence: Option<real>,
                     provenance: Option<string>, importanceScore: Option<real>,
                     importanceSource: Option<string>)

  function Or<T>(value: Option<T>, fallback: T): T {
    match value
    case Some(x) => x
    case None => fallback
  }

  function Parsed(parse: string -> Option<Row>, lines: seq<string>): seq<Row> {
    if lines == [] then []
    else (match parse(lines[0]) case Some(row) => [row] case None => []) + Parsed(parse, lines[1..])
  }

  /** The rows that have content; their contents are what is embedded. */
  function Contents(rows: seq<Row>): seq<Row> {
    if rows == [] then []
    else (if rows[0].content.Some? then [rows[0]] else []) + Contents(rows[1..])
  }

  datatype StoreResult = Stored | Deduplicated | Failed

  /** A call to the store. */
  datatype Save = Save(content: string, memoryType: string, confidence: real, embedding: Vector, provenance: string,
                       importanceScore: real, importanceSource: string)

  /** The call made for a row that has content, its missing columns filled in. */
  function SaveOf(row: Row, embedding: Vector): Save {
    Save(Or(row.content, ""), Or(row.memoryType, "semantic"), Or(row.confidence, 0.8), embedding,
         Or(row.provenance, "user_stated"), Or(row.importanceScore, 0.5), Or(row.importanceSource, "extractor"))
  }

  datatype Report = Report(imported: nat, skippedDedup: nat, errors: nat) {
    function Total(): nat {
      imported + skippedDedup + errors
    }
  }

  /** How many rows are accounted for when there are `m` embeddings: the loop gives up at the first
      row that needs another. */
  function Reached(rows: seq<Row>, m: nat): nat {
    if rows == [] then 0
    else if rows[0].content.None? then 1 + Reached(rows[1..], m)
    else if m == 0 then 1
    else 1 + Reached(rows[1..], m - 1)
  }

  /** How many `i` below `n` satisfy `p`. */
  function Tally(p: nat -> bool, n: nat): nat {
    if n == 0 then 0 else Tally(p, n - 1) + if p(n - 1) then 1 else 0
  }

  /** What the loop takes for an import: the store accepted the row and the shared deduplication
      counter, which `others` may have raised meanwhile, stands where it stood. */
  function LooksImported(store: nat -> StoreResult, others: nat -> nat): nat -> bool {
    (call: nat) => store(call) == Stored && others(call) == 0
  }

  function LooksSkipped(store: nat -> StoreResult, others: nat -> nat): nat -> bool {
    (call: nat) => store(call) != Failed && (store(call) == Deduplicated || others(call) > 0)
  }

  lemma {:induction false} ContentsJoin(a: seq<Row>, b: seq<Row>)
    ensures Contents(a + b) == Contents(a) + Contents(b)
  {
    if a == [] {
      assert a + b == b;
    } else {
      assert (a + b)[1..] == a[1..] + b;
      ContentsJoin(a[1..], b);
    }
  }

  lemma ContentsOneMore(rows: seq<Row>, i: nat)
    requires i < |rows|
    ensures Contents(rows[..i + 1]) == Contents(rows[..i]) + if rows[i].content.Some? then [rows[i]] else []
    ensures |Contents(rows[..i + 1])| <= |Contents(rows)|
    ensures rows[i].content.Some? ==>
      |Contents(rows[..i])| < |Contents(rows)| && Contents(rows)[|Contents(rows[..i])|] == rows[i]
  {
    assert rows[..i + 1] == rows[..i] + [rows[i]] && rows == rows[..i + 1] + rows[i + 1..];
    ContentsJoin(rows[..i], [rows[i]]);
    ContentsJoin(rows[..i + 1], rows[i + 1..]);
    assert [rows[i]][1..] == [];
  }

  /** Up to the row that lacks an embedding, every row is reached. */
  lemma {:induction false} ReachedAt(rows: seq<Row>, m: nat, i: nat)
    requires i <= |rows| && |Contents(rows[..i])| <= m
    requires i == |rows| || (|Contents(rows[..i])| == m && rows[i].content.Some?)
    ensures Reached(rows, m) == if i == |rows| then i else i + 1
    decreases |rows|
  {
    if i > 0 {
      assert rows[..i][1..] == rows[1..][..i - 1] && rows[..i][0] == rows[0];
      ReachedAt(rows[1..], if rows[0].content.None? then m else m - 1, i - 1);
    }
  }

  lemma ParsedUnfolds(parse: string -> Option<Row>, lines: seq<string>, i: nat)
    requires i < |lines|
    ensures Parsed(parse, lines[i..])
         == (match parse(lines[i]) case Some(row) => [row] case None => []) + Parsed(parse, lines[i + 1..])
  {
    assert lines[i..][1..] == lines[i + 1..];
  }

  method ParseLines(parse: string -> Option<Row>, lines: seq<string>) returns (rows: seq<Row>, errors: nat)
    ensures rows == Parsed(parse, lines) && errors + |rows| == |lines|
  {
    rows, errors := [], 0;
    for i := 0 to |lines|
      invariant Parsed(parse, lines) == rows + Parsed(parse, lines[i..]) && errors + |rows| == i
    {
      ParsedUnfolds(parse, lines, i);
      hide Parsed;
      match parse(lines[i])
      case Some(row) =>
        Regrouped(rows, [row], Parsed(parse, lines[i + 1..]));
        rows := rows + [row];
      case None =>
        Regrouped(rows, [], Parsed(parse, lines[i + 1..]));
        errors := errors + 1;
    }
  }

  /** The counters after `n` calls and `errors` rows that made none or failed. */
  ghost predicate Counts(report: Report, store: nat -> StoreResult, others: nat -> nat, n: nat, done: nat) {
    && report.imported == Tally(LooksImported(store, others), n)
    && report.skippedDedup == Tally(LooksSkipped(store, others), n)
    && report.Total() == done
  }

  method OneError(report: Report, ghost store: nat -> StoreResult, ghost others: nat -> nat, ghost calls: nat,
                  ghost done: nat)
    returns (after: Report)
    requires Counts(report, store, others, calls, done)
    ensures Counts(after, store, others, calls, done + 1)
  {
    after := Report(report.imported, report.skippedDedup, report.errors + 1);
  }

  /** One call to the store, and the counters after it. */
  method StoreRow(report: Report, store: nat -> StoreResult, others: nat -> nat, call: nat, ghost done: nat)
    returns (after: Report)
    requires Counts(report, store, others, call, done)
    ensures Counts(after, store, others, call + 1, done + 1)
  {
    var result := store(call);
    var raised := others(call) + if result == Deduplicated then 1 else 0;
    if result == Failed {
      after := Report(report.imported, report.skippedDedup, report.errors + 1);
    } else if raised > 0 {
      after := Report(report.imported, report.skippedDedup + 1, report.errors);
    } else {
      after := Report(report.imported + 1, report.skippedDedup, report.errors);
    }
  }

  /** The saves made by the time the loop stands at row `i`. */
  ghost predicate SavedTo(rows: seq<Row>, embeddings: seq<Vector>, i: int, saves: seq<Save>)
    requires 0 <= i <= |rows|
  {
    && |saves| == |Contents(rows[..i])| <= |embeddings| && |saves| <= |Contents(rows)|
    && forall k :: 0 <= k < |saves| ==> saves[k] == SaveOf(Contents(rows)[k], embeddings[k])
  }

  lemma SavedOn(rows: seq<Row>, embeddings: seq<Vector>, i: nat, saves: seq<Save>)
    requires i < |rows| && SavedTo(rows, embeddings, i, saves)
    ensures rows[i].content.None? ==> SavedTo(rows, embeddings, i + 1, saves)
    ensures rows[i].content.Some? && |saves| < |embeddings| ==>
      SavedTo(rows, embeddings, i + 1, saves + [SaveOf(rows[i], embeddings[|saves|])])
    ensures |saves| <= |embeddings|
    ensures rows[i].content.Some? ==> |saves| < |Contents(rows)|
  {
    hide Contents;
    ContentsOneMore(rows, i);
  }

  lemma SavedAtStart(rows: seq<Row>, embeddings: seq<Vector>)
    ensures SavedTo(rows, embeddings, 0, [])
  {
    assert rows[..0] == [];
  }

  /** Where the loop ends: past the last row, or at one that lacks an embedding. */
  lemma SavedAtEnd(rows: seq<Row>, embeddings: seq<Vector>, i: nat, saves: seq<Save>)
    requires i <= |rows| && SavedTo(rows, embeddings, i, saves)
    requires i < |rows| ==> rows[i].content.Some? && |saves| == |embeddings|
    ensures |saves| == Min(|Contents(rows)|, |embeddings|)
    ensures forall k :: 0 <= k < |saves| ==> saves[k] == SaveOf(Contents(rows)[k], embeddings[k])
    ensures Reached(rows, |embeddings|) == if i == |rows| then i else i + 1
  {
    assert rows[..|rows|] == rows;
    if i < |rows| { SavedOn(rows, embeddings, i, saves); }
    ReachedAt(rows, |embeddings|, i);
  }

  /** The loop over the parsed rows; `errors` lines were not parsed. */
  method SaveRows(rows: seq<Row>, embeddings: seq<Vector>, store: nat -> StoreResult, others: nat -> nat, errors: nat)
    returns (report: Report, saves: seq<Save>)
    ensures |saves| == Min(|Contents(rows)|, |embeddings|)
    ensures forall k :: 0 <= k < |saves| ==> saves[k] == SaveOf(Contents(rows)[k], embeddings[k])
    ensures Counts(report, store, others, |saves|, errors + Reached(rows, |embeddings|))
  {
    report, saves := Report(0, 0, errors), [];
    var i := 0;
    SavedAtStart(rows, embeddings);
    NoCalls(store, others, errors);
    hide SavedTo, Counts, Reached, Contents;
    while i < |rows|
      invariant 0 <= i <= |rows| && SavedTo(rows, embeddings, i, saves)
      invariant Counts(report, store, others, |saves|, errors + i)
    {
      SavedOn(rows, embeddings, i, saves);
      match rows[i].content {
        case None =>
          report := OneError(report, store, others, |saves|, errors + i);
        case Some(content) =>
          if |saves| == |embeddings| {
            report := OneError(report, store, others, |saves|, errors + i);
            break;
          }
          report := StoreRow(report, store, others, |saves|, errors + i);
          saves := saves
            + [Save(content, Or(rows[i].memoryType, "semantic"), Or(rows[i].confidence, 0.8), embeddings[|saves|],
                    Or(rows[i].provenance, "user_stated"), Or(rows[i].importanceScore, 0.5),
                    Or(rows[i].importanceSource, "extractor"))];
      }
      i := i + 1;
    }
    SavedAtEnd(rows, embeddings, i, saves);
  }

  /** The rows with content are saved in order, each with the embedding of its place; `store` and
      `others` tell, by call, how the store answered and what others did to the counter. */
  method ImportRows(parse: string -> Option<Row>, lines: seq<string>, embeddings: seq<Vector>,
                    store: nat -> StoreResult, others: nat -> nat)
    returns (report: Report, saves: seq<Save>)
    ensures var contents := Contents(Parsed(parse, lines));
      && |saves| == Min(|contents|, |embeddings|)
      && forall i :: 0 <= i < |saves| ==> saves[i] == SaveOf(contents[i], embeddings[i])
    ensures report.imported == Tally(LooksImported(store, others), |saves|)
    ensures report.skippedDedup == Tally(LooksSkipped(store, others), |saves|)
    ensures report.Total() == |lines| - |Parsed(parse, lines)| + Reached(Parsed(parse, lines), |embeddings|)
  {
    hide Parsed, Contents, Reached, Tally;
    var rows, errors := ParseLines(parse, lines);
    report, saves := SaveRows(rows, embeddings, store, others, errors);
  }

  // ---- The whole import ----------------------------------------------------------------

  /** The texts sent to be embedded. */
  function Texts(rows: seq<Row>): seq<string> {
    seq(|Contents(rows)|, i requires 0 <= i < |Contents(rows)| => Or(Contents(rows)[i].content, ""))
  }

  /** The provider answers each text once, naming it by its index. */
  ghost predicate AnswersEach(texts: seq<string>, embed: string -> Vector, data: seq<Embedded>) {
    && IndicesAreDense(data) && |data| == |texts|
    && forall e :: e in data ==> e.index < |texts| && e.vector == embed(texts[e.index])
  }

  /** Parse, embed, save.  `provider` is asked only if there is something to embed; if it fails
      nothing is saved.  If it answers each text once, in whatever order, every row with content is
      saved with the embedding of its own content, and the report accounts for every line. */
  method ImportMemories(parse: string -> Option<Row>, lines: seq<string>,
                        provider: seq<string> -> Option<seq<Embedded>>,
                        store: nat -> StoreResult, others: nat -> nat, ghost embed: string -> Vector)
    returns (report: Option<Report>, saves: seq<Save>)
    ensures var texts := Texts(Parsed(parse, lines));
      && (report.None? <==> texts != [] && provider(texts).None?)
      && (report.None? ==> saves == [])
      && (texts != [] && provider(texts).Some? && AnswersEach(texts, embed, provider(texts).value) ==>
            && |saves| == |texts| && report.value.Total() == |lines|
            && forall i :: 0 <= i < |saves| ==>
                 saves[i] == SaveOf(Contents(Parsed(parse, lines))[i], embed(texts[i])) && saves[i].content == texts[i])
      && (texts == [] ==> saves == [] && report.value == Report(0, 0, |lines|))
    ensures report.Some? ==>
      && report.value.imported == Tally(LooksImported(store, others), |saves|)
      && report.value.skippedDedup == Tally(LooksSkipped(store, others), |saves|)
  {
    hide Parsed, Contents, Reached;
    var rows, errors := ParseLines(parse, lines);
    var texts, embeddings := Texts(rows), [];
    if texts != [] {
      match provider(texts) {
        case None => return None, [];
        case Some(data) =>
          embeddings := EmbedTexts(data);
          if AnswersEach(texts, embed, data) {
            var indexed :| MayReturn(data, indexed) && embeddings == Vectors(indexed);
            EachTextItsOwn(texts, embed, data, indexed);
          }
      }
    }
    var r;
    r, saves := SaveRows(rows, embeddings, store, others, errors);
    report := Some(r);
    ReachedAllIff(rows, |embeddings|);
  }

  lemma NoCalls(store: nat -> StoreResult, others: nat -> nat, errors: nat)
    ensures Counts(Report(0, 0, errors), store, others, 0, errors)
  {
  }

  // ---- What the report is worth --------------------------------------------------------

  lemma {:induction false} ReachedAllIff(rows: seq<Row>, m: nat)
    ensures Reached(rows, m) <= |rows|
    ensures Reached(rows, m) == |rows| <==>
      |Contents(rows)| <= m || (|Contents(rows)| == m + 1 && rows[|rows| - 1].content.Some?)
  {
    if rows != [] {
      var rest := rows[1..];
      if rows[0].content.None? {
        ReachedAllIff(rest, m);
      } else if m > 0 {
        ReachedAllIff(rest, m - 1);
      } else {
        assert rest == [] ==> Contents(rest) == [];
        NoContents(rest);
      }
      assert rest != [] ==> rest[|rest| - 1] == rows[|rows| - 1];
    }
  }

  lemma {:induction false} NoContents(rows: seq<Row>)
    ensures Contents(rows) == [] <==> forall i :: 0 <= i < |rows| ==> rows[i].content.None?
  {
    if rows != [] {
      NoContents(rows[1..]);
    }
  }

  lemma {:induction false} TallyBelow(p: nat -> bool, q: nat -> bool, n: nat)
    requires forall i :: 0 <= i < n && p(i) ==> q(i)
    ensures Tally(p, n) <= Tally(q, n)
    ensures Tally(p, n) == Tally(q, n) <==> forall i :: 0 <= i < n && q(i) ==> p(i)
  {
    if n > 0 { TallyBelow(p, q, n - 1); }
  }

  /** The number reported as imported is the number of rows the store took exactly when no one
      else deduplicated anything while one of those was being stored. */
  lemma ImportedIsExactIff(store: nat -> StoreResult, others: nat -> nat, n: nat)
    ensures Tally(LooksImported(store, others), n) == Tally((call: nat) => store(call) == Stored, n)
       <==> forall call :: 0 <= call < n && store(call) == Stored ==> others(call) == 0
  {
    TallyBelow(LooksImported(store, others), (call: nat) => store(call) == Stored, n);
  }

  lemma {:induction false} TallyCounts(p: nat -> bool, n: nat)
    ensures Tally(p, n) == |set i: nat | i < n && p(i)|
  {
    var before := set i: nat | i < n - 1 && p(i);
    if n == 0 {
      assert (set i: nat | i < n && p(i)) == {};
    } else {
      TallyCounts(p, n - 1);
      assert (set i: nat | i < n && p(i)) == before + if p(n - 1) then {n - 1} else {};
    }
  }

  /** Rows counted as skipped are those that were, and those stored while someone else deduplicated. */
  lemma SkippedIs(store: nat -> StoreResult, others: nat -> nat, n: nat)
    ensures Tally(LooksSkipped(store, others), n)
         == |set i: nat | i < n && store(i) == Deduplicated|
            + |set i: nat | i < n && store(i) == Stored && others(i) > 0|
  {
    var skipped, late := set i: nat | i < n && store(i) == Deduplicated,
      set i: nat | i < n && store(i) == Stored && others(i) > 0;
    TallyCounts(LooksSkipped(store, others), n);
    assert (set i: nat | i < n && LooksSkipped(store, others)(i)) == skipped + late && skipped !! late;
  }

  /** The columns of a row with content, each with its own default. */
  lemma SavedColumns(row: Row, embedding: Vector)
    requires row.content.Some?
    ensures var save := SaveOf(row, embedding);
      && save.content == row.content.value && save.embedding == embedding
      && save.memoryType == (if row.memoryType.Some? then row.memoryType.value else "semantic")
      && save.confidence == (if row.confidence.Some? then row.confidence.value else 0.8)
      && save.provenance == (if row.provenance.Some? then row.provenance.value else "user_stated")
      && save.importanceScore == (if row.importanceScore.Some? then row.importanceScore.value else 0.5)
      && save.importanceSource == (if row.importanceSource.Some? then row.importanceSource.value else "extractor")
  {
  }
}
