/** The schema retriever `SchemaEmbedder`: what its constructor caches, the dispatch
    of `search` between the embedding index and the lexical fallback, and the
    fallback `_basic_search`, which ranks data-dictionary rows by how many question
    words they contain. The embedding model and the semantic search over it are
    foreign code; their hits are parameters. */
module Embedding {
  import opened Maybe
  import opened Text
  import opened Schema

  // ---------------------------------------------------------------------------
  // Scoring (lines 100-105)
  // ---------------------------------------------------------------------------

  /** `f"{row['Table']} {row['Column']} {row['Column Description']}"`. */
  function DictText(row: DictRow): string {
    row.table + " " + row.column + " " + row.description
  }

  /** The lowered text a row is matched against (line 103). */
  function RowText(row: DictRow): string {
    Lower(DictText(row))
  }

  /** `sum(1 for word in words if word in text)`: the words occurring in `text`,
      a word that appears twice in `words` counted twice. */
  function Score(words: seq<string>, text: string): (r: nat)
    ensures r <= |words|
    ensures r == 0 <==> forall k :: 0 <= k < |words| ==> !Contains(text, words[k])
  {
    if words == [] then 0
    else
      var rest := Score(words[1..], text);
      assert forall k :: 1 <= k < |words| ==> words[k] == words[1..][k - 1];
      (if Contains(text, words[0]) then 1 else 0) + rest
  }

  /** Scores add up over the question's words. */
  lemma {:induction false} ScoreAppend(a: seq<string>, b: seq<string>, text: string)
    ensures Score(a + b, text) == Score(a, text) + Score(b, text)
  {
    if a == [] {
      assert a + b == b;
    } else {
      assert (a + b)[0] == a[0] && (a + b)[1..] == a[1..] + b;
      ScoreAppend(a[1..], b, text);
    }
  }

  /** The score of row `i` for `question`: its words are `question.lower().split()`. */
  function RowScore(rows: seq<DictRow>, question: string, i: nat): nat
    requires i < |rows|
  {
    Score(Words(Lower(question)), RowText(rows[i]))
  }

  // ---------------------------------------------------------------------------
  // Ranking (line 106)
  // ---------------------------------------------------------------------------

  /** A `(score, idx)` pair. */
  datatype Scored = Scored(score: nat, id: nat)

  /** `a` comes before `b` after `sort(reverse=True)`: a higher score, or the same
      score and a larger index, as Python compares tuples. */
  predicate Above(a: Scored, b: Scored) {
    a.score > b.score || (a.score == b.score && a.id > b.id)
  }

  /** Each pair comes before every later one. */
  predicate Ranked(s: seq<Scored>) {
    forall i, j :: 0 <= i < j < |s| ==> Above(s[i], s[j])
  }

  predicate NoRepeats(s: seq<Scored>) {
    forall i, j :: 0 <= i < j < |s| ==> s[i] != s[j]
  }

  /** One insertion step of the sort. */
  function Insert(x: Scored, s: seq<Scored>): (r: seq<Scored>)
    requires Ranked(s) && x !in s
    ensures Ranked(r) && multiset(r) == multiset(s) + multiset{x}
  {
    if s == [] then [x]
    else if Above(x, s[0]) then
      [x] + s
    else
      var rest := Insert(x, s[1..]);
      assert s == [s[0]] + s[1..];
      forall y | y in rest ensures Above(s[0], y) {
        assert y in multiset(rest);
      }
      [s[0]] + rest
  }

  /** `scores.sort(reverse=True)` on pairs that are all different. */
  function Rank(s: seq<Scored>): (r: seq<Scored>)
    requires NoRepeats(s)
    ensures Ranked(r) && multiset(r) == multiset(s)
  {
    if s == [] then []
    else
      assert s == [s[0]] + s[1..];
      assert NoRepeats(s[1..]) by {
        forall a, b | 0 <= a < b < |s| - 1 ensures s[1..][a] != s[1..][b] {
          assert s[1..][a] == s[a + 1] && s[1..][b] == s[b + 1];
        }
      }
      var rest := Rank(s[1..]);
      assert s[0] !in s[1..] by {
        forall j | 0 <= j < |s| - 1 ensures s[1..][j] != s[0] {
          assert s[1..][j] == s[j + 1];
        }
      }
      assert s[0] !in multiset(rest);
      Insert(s[0], rest)
  }

  /** The `scores` list the loop of lines 102-105 builds: one pair per row, in row
      order, the index being the row's position. */
  function Scores(rows: seq<DictRow>, words: seq<string>): (r: seq<Scored>)
    ensures |r| == |rows| && NoRepeats(r)
    ensures forall i :: 0 <= i < |r| ==> r[i] == Scored(Score(words, RowText(rows[i])), i)
  {
    seq(|rows|, i requires 0 <= i < |rows| => Scored(Score(words, RowText(rows[i])), i))
  }

  /** The pairs of the rows, sorted. */
  function Ranking(rows: seq<DictRow>, question: string): (r: seq<Scored>)
    ensures Ranked(r)
  {
    Rank(Scores(rows, Words(Lower(question))))
  }

  /** The sorted pairs are exactly the rows' pairs. */
  lemma RankingEntries(rows: seq<DictRow>, question: string, p: Scored)
    ensures p in Ranking(rows, question) <==> p.id < |rows| && p.score == RowScore(rows, question, p.id)
  {
    var s := Scores(rows, Words(Lower(question)));
    assert p in Ranking(rows, question) <==> p in multiset(s);
    if p.id < |rows| && p.score == RowScore(rows, question, p.id) {
      assert s[p.id] == p;
    }
  }

  // ---------------------------------------------------------------------------
  // _basic_search (lines 96-107)
  // ---------------------------------------------------------------------------

  /** `[p for p in s if p.score > 0]`, in order. */
  function Kept(s: seq<Scored>): (r: seq<Scored>)
    ensures |r| <= |s|
    ensures forall p :: p in r ==> p in s && p.score > 0
  {
    if s == [] then []
    else
      var rest := Kept(s[..|s| - 1]);
      if s[|s| - 1].score > 0 then rest + [s[|s| - 1]] else rest
  }

  /** Every positive pair is kept. */
  lemma {:induction false} KeptPositive(s: seq<Scored>, p: Scored)
    ensures p in s && p.score > 0 ==> p in Kept(s)
  {
    if p in s && p != s[|s| - 1] {
      assert s == s[..|s| - 1] + [s[|s| - 1]];
      KeptPositive(s[..|s| - 1], p);
    }
  }

  /** Keeping the positive pairs of a ranked list leaves it ranked. */
  lemma {:induction false} KeptRanked(s: seq<Scored>)
    requires Ranked(s)
    ensures Ranked(Kept(s))
  {
    if s != [] {
      var init := s[..|s| - 1];
      var last := s[|s| - 1];
      assert Ranked(init) by {
        forall i, j | 0 <= i < j < |init| ensures Above(init[i], init[j]) {
          assert init[i] == s[i] && init[j] == s[j];
        }
      }
      KeptRanked(init);
      var rest := Kept(init);
      forall y | y in rest ensures Above(y, last) {
        var k :| 0 <= k < |init| && init[k] == y;
        assert s[k] == y;
      }
    }
  }

  /** Keeping the positive pairs of a list that has only positive pairs keeps all. */
  lemma {:induction false} KeptAll(s: seq<Scored>)
    requires forall k :: 0 <= k < |s| ==> s[k].score > 0
    ensures Kept(s) == s
  {
    if s != [] {
      KeptAll(s[..|s| - 1]);
      assert s == s[..|s| - 1] + [s[|s| - 1]];
    }
  }

  /** `min(top_k, len(scores))`. */
  function Cut(k: nat, n: nat): nat {
    if k < n then k else n
  }

  /** The pairs `_basic_search` answers with: those of the first `top_k` sorted pairs
      that have a positive score. */
  function Top(rows: seq<DictRow>, question: string, k: nat): seq<Scored> {
    var ranked := Ranking(rows, question);
    Kept(ranked[..Cut(k, |ranked|)])
  }

  /** At most `top_k` rows come back. */
  lemma TopBound(rows: seq<DictRow>, question: string, k: nat)
    ensures |Top(rows, question, k)| <= k
  {
    var ranked := Ranking(rows, question);
    assert |ranked[..Cut(k, |ranked|)]| <= k;
  }

  /** Each answer is a row with its own, positive, score. */
  lemma TopEntries(rows: seq<DictRow>, question: string, k: nat, p: Scored)
    requires p in Top(rows, question, k)
    ensures p.id < |rows| && p.score == RowScore(rows, question, p.id) && p.score > 0
  {
    var ranked := Ranking(rows, question);
    assert p in ranked[..Cut(k, |ranked|)];
    RankingEntries(rows, question, p);
  }

  /** The answers are by descending score, ties to the larger row index. */
  lemma TopRanked(rows: seq<DictRow>, question: string, k: nat)
    ensures Ranked(Top(rows, question, k))
  {
    var ranked := Ranking(rows, question);
    var prefix := ranked[..Cut(k, |ranked|)];
    assert Ranked(prefix) by {
      forall i, j | 0 <= i < j < |prefix| ensures Above(prefix[i], prefix[j]) {
        assert prefix[i] == ranked[i] && prefix[j] == ranked[j];
      }
    }
    KeptRanked(prefix);
  }

  /** A row with a positive score is left out only when `top_k` rows come back, each
      ranking above it. */
  lemma TopComplete(rows: seq<DictRow>, question: string, k: nat, i: nat)
    requires i < |rows| && RowScore(rows, question, i) > 0
    requires Scored(RowScore(rows, question, i), i) !in Top(rows, question, k)
    ensures |Top(rows, question, k)| == k
    ensures forall p :: p in Top(rows, question, k) ==> Above(p, Scored(RowScore(rows, question, i), i))
  {
    var x := Scored(RowScore(rows, question, i), i);
    var ranked := Ranking(rows, question);
    var m := Cut(k, |ranked|);
    var prefix := ranked[..m];
    RankingEntries(rows, question, x);
    var pos :| 0 <= pos < |ranked| && ranked[pos] == x;
    KeptPositive(prefix, x);
    assert x !in prefix;
    assert forall j :: 0 <= j < m ==> ranked[j] != x by {
      forall j | 0 <= j < m ensures ranked[j] != x {
        assert ranked[j] == prefix[j];
      }
    }
    assert m <= pos;
    assert m == k;
    assert forall j :: 0 <= j < m ==> Above(prefix[j], x) by {
      forall j | 0 <= j < m ensures Above(prefix[j], x) {
        assert prefix[j] == ranked[j];
      }
    }
    KeptAll(prefix);
  }

  /** `[self.data_dict.iloc[idx] for ...]`: the rows of the given pairs. */
  function HitRows(rows: seq<DictRow>, hits: seq<Scored>): (r: seq<DictRow>)
    requires forall j :: 0 <= j < |hits| ==> hits[j].id < |rows|
  {
    seq(|hits|, j requires 0 <= j < |hits| => rows[hits[j].id])
  }

  /** The answer of `_basic_search(question, top_k)` on `rows`. */
  function BasicHits(rows: seq<DictRow>, question: string, k: nat): (r: seq<DictRow>)
    ensures rows == [] ==> r == []
  {
    var top := Top(rows, question, k);
    forall j | 0 <= j < |top| ensures top[j].id < |rows| {
      TopEntries(rows, question, k, top[j]);
    }
    HitRows(rows, top)
  }

  // ---------------------------------------------------------------------------
  // SchemaEmbedder (lines 21-94)
  // ---------------------------------------------------------------------------

  class SchemaEmbedder {
    /** Whether `SentenceTransformer(EMBED_MODEL)` loaded (`self.model` is not None). */
    var hasModel: bool
    /** `self.data_dict`, one entry per row. */
    var dataDict: seq<DictRow>
    /** `self.texts`, and whether `self.embeddings` is set. */
    var texts: seq<string>
    var embedded: bool
    /** `self.data_row_texts`, and whether `self.data_row_embeddings` is set. */
    var dataRowTexts: seq<string>
    var rowsEmbedded: bool

    /** Embeddings exist only with a model, and the schema index has one text per
        dictionary row. */
    predicate Valid()
      reads this
    {
      && (embedded ==> hasModel && texts != [] && |texts| == |dataDict|)
      && (rowsEmbedded ==> hasModel && dataRowTexts != [])
    }

    /** `SchemaEmbedder(data_dict_path, data_dict, embed_data_rows)`. Whether the
        model loads, the dictionary (given, or read from the file), and the row texts
        read from the database (`None` when that raises) are parameters. */
    constructor (modelLoads: bool, dict: seq<DictRow>, embedDataRows: bool, dbRows: Option<seq<string>>)
      ensures Valid()
      ensures hasModel == modelLoads && dataDict == dict
      ensures embedded <==> modelLoads && dict != []
      ensures texts == if modelLoads && dict != [] then SchemaTexts(dict) else []
      ensures dataRowTexts == if embedDataRows && modelLoads && dbRows.Some? then dbRows.value else []
      ensures rowsEmbedded <==> embedDataRows && modelLoads && dbRows.Some? && dbRows.value != []
    {
      hasModel := modelLoads;
      dataDict := dict;
      texts := [];
      embedded := false;
      dataRowTexts := [];
      rowsEmbedded := false;
      new;
      if dict != [] && modelLoads {
        EmbedSchema();
      }
      if embedDataRows && modelLoads {
        EmbedDataRows(dbRows);
      }
    }

    /** `_embed_schema` (lines 44-51). */
    method EmbedSchema()
      requires hasModel && dataDict != []
      modifies this
      ensures texts == SchemaTexts(dataDict) && embedded
      ensures hasModel == old(hasModel) && dataDict == old(dataDict)
      ensures dataRowTexts == old(dataRowTexts) && rowsEmbedded == old(rowsEmbedded)
    {
      texts := SchemaTexts(dataDict);
      if texts != [] {
        embedded := true;
      }
    }

    /** `_embed_data_rows` (lines 53-76), given the row texts read from the database
        or `None` when reading raised. */
    method EmbedDataRows(dbRows: Option<seq<string>>)
      requires hasModel
      modifies this
      ensures dataRowTexts == if dbRows.Some? then dbRows.value else []
      ensures rowsEmbedded <==> dbRows.Some? && dbRows.value != []
      ensures hasModel == old(hasModel) && dataDict == old(dataDict)
      ensures texts == old(texts) && embedded == old(embedded)
    {
      match dbRows
      case Some(rows) =>
        dataRowTexts := rows;
        rowsEmbedded := rows != [];
      case None =>
        dataRowTexts := [];
        rowsEmbedded := false;
    }

    /** `_basic_search(question, top_k)`. */
    method BasicSearch(question: string, topK: nat) returns (hits: seq<DictRow>)
      ensures hits == BasicHits(dataDict, question, topK)
    {
      if |dataDict| == 0 {
        return [];
      }
      var rows := dataDict;
      var scores := ScoreRows(rows, Words(Lower(question)));
      var ranked := Rank(scores);
      var prefix := ranked[..Cut(topK, |ranked|)];
      forall t | 0 <= t < |prefix| ensures prefix[t].id < |rows| {
        RankingEntries(rows, question, prefix[t]);
      }
      hits := KeepHits(rows, prefix);
    }

    /** `search(question, top_k, data_row_k)`. `schemaHits` and `rowHits` are the
        corpus indices `util.semantic_search` returns over the schema and the row
        embeddings: at most `top_k` (`data_row_k`) of them, each within its corpus. */
    method Search(question: string, topK: nat, dataRowK: nat, schemaHits: seq<nat>, rowHits: seq<nat>)
      returns (schema: seq<DictRow>, dataRows: seq<string>)
      requires Valid()
      requires |schemaHits| <= topK && forall j :: 0 <= j < |schemaHits| ==> schemaHits[j] < |texts|
      requires |rowHits| <= dataRowK && forall j :: 0 <= j < |rowHits| ==> rowHits[j] < |dataRowTexts|
      ensures !(hasModel && embedded && dataDict != []) ==> schema == BasicHits(dataDict, question, topK)
      ensures hasModel && embedded && dataDict != [] ==>
                |schema| == |schemaHits| && forall j :: 0 <= j < |schemaHits| ==> schema[j] == dataDict[schemaHits[j]]
      ensures hasModel && rowsEmbedded && dataRowTexts != [] ==>
                |dataRows| == |rowHits| && forall j :: 0 <= j < |rowHits| ==> dataRows[j] == dataRowTexts[rowHits[j]]
      ensures !(hasModel && rowsEmbedded && dataRowTexts != []) ==> dataRows == []
      ensures |schema| <= topK && |dataRows| <= dataRowK
    {
      if !hasModel || !embedded || dataDict == [] {
        schema := BasicSearch(question, topK);
        TopBound(dataDict, question, topK);
      } else {
        var rows := dataDict;
        schema := seq(|schemaHits|, j requires 0 <= j < |schemaHits| => rows[schemaHits[j]]);
      }
      dataRows := [];
      if hasModel && rowsEmbedded && dataRowTexts != [] {
        var texts := dataRowTexts;
        dataRows := seq(|rowHits|, j requires 0 <= j < |rowHits| => texts[rowHits[j]]);
      }
    }
  }

  /** The loop of lines 102-105: each row's score against the question's words. */
  method ScoreRows(rows: seq<DictRow>, words: seq<string>) returns (scores: seq<Scored>)
    ensures scores == Scores(rows, words)
  {
    scores := [];
    var i := 0;
    while i < |rows|
      invariant 0 <= i <= |rows| && |scores| == i
      invariant forall j :: 0 <= j < i ==> scores[j] == Scored(Score(words, RowText(rows[j])), j)
    {
      scores := scores + [Scored(Score(words, RowText(rows[i])), i)];
      i := i + 1;
    }
  }

  /** The comprehension of line 107 over the first `top_k` sorted pairs: the rows of
      those with a positive score. */
  method KeepHits(rows: seq<DictRow>, prefix: seq<Scored>) returns (hits: seq<DictRow>)
    requires forall t :: 0 <= t < |prefix| ==> prefix[t].id < |rows|
    ensures forall t :: 0 <= t < |Kept(prefix)| ==> Kept(prefix)[t].id < |rows|
    ensures hits == HitRows(rows, Kept(prefix))
  {
    hits := [];
    ghost var kept: seq<Scored> := [];
    for j := 0 to |prefix|
      invariant kept == Kept(prefix[..j])
      invariant |hits| == |kept|
      invariant forall t :: 0 <= t < |kept| ==> kept[t].id < |rows| && hits[t] == rows[kept[t].id]
    {
      assert prefix[..j + 1][..j] == prefix[..j];
      if prefix[j].score > 0 {
        kept := kept + [prefix[j]];
        hits := hits + [rows[prefix[j].id]];
      }
    }
    assert prefix[..|prefix|] == prefix;
  }

  /** `self.texts`: one text per dictionary row, in order (line 48). */
  function SchemaTexts(dict: seq<DictRow>): (r: seq<string>)
    ensures |r| == |dict| && forall i :: 0 <= i < |dict| ==> r[i] == DictText(dict[i])
  {
    seq(|dict|, i requires 0 <= i < |dict| => DictText(dict[i]))
  }
}
