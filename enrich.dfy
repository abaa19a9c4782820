/** Keyword enrichment of catalog records (`enrich_data` in enrich_data.py).

    For each record the analysis text `"{title}. {description}"` is handed to
    a named-entity extractor; entities scoring above the threshold that are
    not sub-word pieces are cleaned and, together with the names of the
    record's existing tags, attached as `enriched_keywords` to a copy of the
    record. When anything in that step raises, the original record is kept.

    The extractor is a parameter: a function from the analysis text to the
    entity list it returns, or to `Raised` when the model call throws.
    Python's `str()` of a non-string title or description is the parameter
    `show`. */
module Enrich {
  import opened Wrappers
  import opened Seqs
  import opened JsonValues

  /** `SCORE_THRESHOLD`: an entity is kept only when its score is above it. */
  const ScoreThreshold: real := 0.9

  /** The field added to each successfully enriched record. */
  const KeywordsField: string := "enriched_keywords"

  /** One entity of the extractor's output: its word and confidence. */
  datatype Entity = Entity(word: string, score: real)

  /** What one extractor call gives: the entities, or an exception. */
  datatype Extraction = Extracted(entities: seq<Entity>) | Raised

  // ---------------------------------------------------------------------
  // The analysis text

  /** `dataset.get(name, '')` placed into an f-string. */
  function FieldText(rec: Record, name: string, show: Json -> string): string {
    if name !in rec then ""
    else match rec[name]
      case JString(s) => s
      case other => show(other)
  }

  /** `f"{title}. {description}"`. */
  function AnalysisText(rec: Record, show: Json -> string): string {
    FieldText(rec, "title", show) + ". " + FieldText(rec, "description", show)
  }

  /** The characters Python's `str.strip()` removes (`str.isspace`). */
  predicate IsPyWhitespace(c: char) {
    || c == ' ' || '\t' <= c <= '\r' || '\U{1C}' <= c <= '\U{1F}'
    || c == '\U{85}' || c == '\U{A0}' || c == '\U{1680}'
    || '\U{2000}' <= c <= '\U{200A}' || c == '\U{2028}' || c == '\U{2029}'
    || c == '\U{202F}' || c == '\U{205F}' || c == '\U{3000}'
  }

  /** `not text.strip()`. */
  predicate IsBlank(text: string) {
    forall i :: 0 <= i < |text| ==> IsPyWhitespace(text[i])
  }

  /** The skip at the blank-text guard can never be taken: the text always
      holds the `.` of the separator. */
  lemma AnalysisTextNeverBlank(rec: Record, show: Json -> string)
    ensures !IsBlank(AnalysisText(rec, show))
  {
    var title := FieldText(rec, "title", show);
    assert AnalysisText(rec, show)[|title|] == '.';
  }

  // ---------------------------------------------------------------------
  // Cleaning one word

  /** Position of the first `c` in `s`. */
  function FirstIndex(s: string, c: char): (i: nat)
    requires c in s
    ensures i < |s| && s[i] == c && c !in s[..i]
  {
    if s[0] == c then 0 else 1 + FirstIndex(s[1..], c)
  }

  /** `w.split("'")[1]`: the text between the first apostrophe and the
      next one, or the end of the word when there is no second one. */
  function SecondField(w: string): string
    requires '\'' in w
  {
    FirstField(w[FirstIndex(w, '\'') + 1..])
  }

  /** The text before the first apostrophe, or all of `s` without one. */
  function FirstField(s: string): string {
    if '\'' in s then s[..FirstIndex(s, '\'')] else s
  }

  /** The cleaning step: a word with an apostrophe is cut down to its
      second apostrophe-separated field; any other word is kept verbatim. */
  function CleanWord(w: string): (r: string)
    ensures '\'' !in w ==> r == w
    ensures '\'' !in r
  {
    if '\'' in w then SecondField(w) else w
  }

  lemma FirstIndexAfter(a: string, c: char, x: string)
    requires c !in a
    ensures c in a + [c] + x && FirstIndex(a + [c] + x, c) == |a|
  {
    var w := a + [c] + x;
    assert w[|a|] == c;
    assert w[..|a|] == a;
  }

  /** `CleanWord` picks out exactly the segment `m` of any decomposition
      `a ' m b` in which `a` and `m` hold no apostrophe and `b` is empty or
      starts with the second apostrophe: the split reading, not "everything
      after the first apostrophe". */
  lemma CleanWordIsSecondField(w: string, a: string, m: string, b: string)
    requires w == a + "'" + m + b
    requires '\'' !in a && '\'' !in m
    requires b == [] || b[0] == '\''
    ensures CleanWord(w) == m
  {
    FirstIndexAfter(a, '\'', m + b);
    assert w == a + ['\''] + (m + b);
    var rest := w[|a| + 1..];
    assert rest == m + b;
    if b == [] {
      assert rest == m;
    } else {
      FirstIndexAfter(m, '\'', b[1..]);
      assert rest == m + ['\''] + b[1..];
    }
  }

  /** Conversely every word with an apostrophe has such a decomposition. */
  lemma CleanWordDecomposes(w: string) returns (a: string, b: string)
    requires '\'' in w
    ensures w == a + ['\''] + CleanWord(w) + b
    ensures '\'' !in a && (b == [] || b[0] == '\'')
  {
    var i := FirstIndex(w, '\'');
    var rest := w[i + 1..];
    a := w[..i];
    SplitAround(w, i);
    b := FirstFieldTail(rest);
    assert CleanWord(w) == FirstField(rest);
    Regroup(a, ['\''], FirstField(rest), b);
  }

  /** What follows the first field: nothing, or the next apostrophe on. */
  lemma FirstFieldTail(s: string) returns (b: string)
    ensures FirstField(s) + b == s
    ensures b == [] || b[0] == '\''
  {
    if '\'' in s {
      b := s[FirstIndex(s, '\'')..];
      assert s[..FirstIndex(s, '\'')] + b == s;
    } else {
      b := [];
      assert s + b == s;
    }
  }

  lemma Regroup(x: string, y: string, z: string, u: string)
    ensures x + y + (z + u) == x + y + z + u
  {
  }

  lemma SplitAround(w: string, i: nat)
    requires i < |w|
    ensures w == w[..i] + [w[i]] + w[i + 1..]
  {
  }

  // ---------------------------------------------------------------------
  // Accepted entities and existing tags

  /** The entity passes the score test and is not a `##` sub-word. */
  predicate Accepted(e: Entity) {
    e.score > ScoreThreshold && !Contains(e.word, "##")
  }

  /** The cleaned words of the accepted entities. */
  function AcceptedWords(entities: seq<Entity>): set<string> {
    set e | e in entities && Accepted(e) :: CleanWord(e.word)
  }

  /** A tag element Python can read `tag['name']` from and hash. */
  predicate IsNamedTag(tag: Json) {
    tag.JObject? && "name" in tag.fields && !IsCompound(tag.fields["name"])
  }

  /** `{tag['name'] for tag in dataset.get('tags', [])}`, or `None` when
      that expression raises: a tag that is not an object with a hashable
      `name`, or a `tags` value that is not iterable or iterates over
      strings. */
  function ExistingTagNames(rec: Record): Option<set<Json>> {
    if "tags" !in rec then Some({})
    else match rec["tags"]
      case JList(items) =>
        if forall i :: 0 <= i < |items| ==> IsNamedTag(items[i])
        then Some(set t | t in items && IsNamedTag(t) :: t.fields["name"])
        else None
      case JString(s) => if s == "" then Some({}) else None
      case JObject(m) => if m == map[] then Some({}) else None
      case _ => None
  }

  /** The keyword set of one record: the accepted cleaned words unioned with
      the existing tag names, or `None` when the record falls back. */
  function Keywords(rec: Record, extraction: Extraction): Option<set<Json>> {
    match extraction
    case Raised => None
    case Extracted(entities) =>
      match ExistingTagNames(rec)
      case None => None
      case Some(tags) => Some((set w | w in AcceptedWords(entities) :: JString(w)) + tags)
  }

  /** `out` is what the loop body appends for `rec`: the original record on
      an exception, otherwise a copy with every original field and
      `enriched_keywords` holding each keyword exactly once. */
  ghost predicate EnrichedAs(rec: Record, extraction: Extraction, out: Record) {
    match Keywords(rec, extraction)
    case None => out == rec
    case Some(keywords) =>
      && out.Keys == rec.Keys + {KeywordsField}
      && (forall k :: k in rec && k != KeywordsField ==> out[k] == rec[k])
      && out[KeywordsField].JList?
      && Distinct(out[KeywordsField].items)
      && (forall j :: j in out[KeywordsField].items <==> j in keywords)
  }

  /** An entity's cleaned word is a keyword exactly when some accepted
      entity yields it or it is an existing tag name; in particular an
      entity at or below the threshold, or one with `##`, contributes
      nothing of its own. */
  lemma KeywordProvenance(rec: Record, entities: seq<Entity>, j: Json)
    requires ExistingTagNames(rec).Some?
    ensures Keywords(rec, Extracted(entities)).Some?
    ensures j in Keywords(rec, Extracted(entities)).value <==>
              j in ExistingTagNames(rec).value
              || (exists e :: e in entities && e.score > ScoreThreshold
                             && !Contains(e.word, "##") && j == JString(CleanWord(e.word)))
  {
  }

  // ---------------------------------------------------------------------
  // The loops

  /** The inner loop: grows `enriched_keywords` with `add` over the
      extractor's entities. */
  method CollectKeywords(entities: seq<Entity>) returns (keywords: set<string>)
    ensures keywords == AcceptedWords(entities)
  {
    keywords := {};
    for i := 0 to |entities|
      invariant keywords == AcceptedWords(entities[..i])
    {
      var entity := entities[i];
      if entity.score > ScoreThreshold {
        var cleanWord := entity.word;
        if Contains(cleanWord, "##") {
          assert entities[..i + 1] == entities[..i] + [entity];
          continue;
        }
        if '\'' in cleanWord {
          cleanWord := SecondField(cleanWord);
        }
        keywords := keywords + {cleanWord};
      }
      assert entities[..i + 1] == entities[..i] + [entity];
    }
    assert entities[..|entities|] == entities;
  }

  /** The loop body for one record, with its `try`/`except`. */
  method EnrichOne(rec: Record, extraction: Extraction) returns (out: Record)
    ensures EnrichedAs(rec, extraction, out)
  {
    if extraction.Raised? {
      return rec;
    }
    var accepted := CollectKeywords(extraction.entities);
    var existing := ExistingTagNames(rec);
    if existing.None? {
      return rec;
    }
    var all := (set w | w in accepted :: JString(w)) + existing.value;
    var keywordList := SetToSeq(all);
    out := rec[KeywordsField := JList(keywordList)];
  }

  /** `enrich_data`: one output record per input record, in input order. */
  method EnrichData(datasets: seq<Record>, extractor: string -> Extraction, show: Json -> string)
    returns (enriched: seq<Record>)
    ensures |enriched| == |datasets|
    ensures forall i :: 0 <= i < |datasets| ==>
              EnrichedAs(datasets[i], extractor(AnalysisText(datasets[i], show)), enriched[i])
  {
    enriched := [];
    for i := 0 to |datasets|
      invariant |enriched| == i
      invariant forall j :: 0 <= j < i ==>
                  EnrichedAs(datasets[j], extractor(AnalysisText(datasets[j], show)), enriched[j])
    {
      var dataset := datasets[i];
      var textToAnalyze := AnalysisText(dataset, show);
      if IsBlank(textToAnalyze) {
        AnalysisTextNeverBlank(dataset, show);
        assert false;
      }
      var out := EnrichOne(dataset, extractor(textToAnalyze));
      enriched := enriched + [out];
    }
  }

  /** The record of the worked example: a title naming a place, an empty
      description and one existing tag. */
  function ParisBudget(): Record {
    map["title" := JString("Paris budget"), "description" := JString(""),
        "tags" := JList([JObject(map["name" := JString("finance")])])]
  }

  lemma ParisBudgetTags()
    ensures ExistingTagNames(ParisBudget()) == Some({JString("finance")})
  {
    var tag := JObject(map["name" := JString("finance")]);
    assert ParisBudget()["tags"] == JList([tag]);
    assert IsNamedTag(tag);
    assert (set t | t in [tag] && IsNamedTag(t) :: t.fields["name"]) == {JString("finance")};
  }

  lemma ParisAccepted()
    ensures AcceptedWords([Entity("Paris", 0.95)]) == {"Paris"}
  {
    var e := Entity("Paris", 0.95);
    MissingElement(e.word, "##", 0);
    assert '\'' !in e.word;
    assert Accepted(e);
  }

  /** The extractor is sure of "Paris"; the record already has the tag
      "finance": both end up as keywords, and nothing else. */
  lemma ParisBudgetExample()
    ensures Keywords(ParisBudget(), Extracted([Entity("Paris", 0.95)]))
            == Some({JString("Paris"), JString("finance")})
  {
    ParisBudgetTags();
    ParisAccepted();
    var words := AcceptedWords([Entity("Paris", 0.95)]);
    assert (set w | w in words :: JString(w)) == {JString("Paris")} by {
      assert "Paris" in words;
    }
    assert Keywords(ParisBudget(), Extracted([Entity("Paris", 0.95)]))
        == Some((set w | w in words :: JString(w)) + {JString("finance")});
    assert {JString("Paris")} + {JString("finance")} == {JString("Paris"), JString("finance")};
  }
}
