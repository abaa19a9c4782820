/** The offline search over the enriched dataset file (`rechercherLocal` in
    src/search/SearchService.cpp): datasets are kept when their organisation
    is certified (if asked), when every word of the normalised query occurs
    in their normalised text, and when one of their tags belongs to the
    theme; the kept ones are then paginated. Reading and parsing the file
    are left out: the parsed array is the input, `None` when the file could
    not be opened or parsed. A JSON field that is absent or not of the
    expected kind is `None`. */
module LocalSearch {
  import opened Wrappers
  import opened Seqs
  import opened Bytes
  import opened Normalise
  import opened Catalog

  datatype Badge = Badge(kind: Option<Bytes>)
  datatype Organisation = Organisation(name: Option<Bytes>, badges: Option<seq<Badge>>)
  datatype SourceResource = SourceResource(url: Option<Bytes>, title: Option<Bytes>, mime: Option<Bytes>)

  /** One element of the enriched dataset array. A tag or keyword that is not
      a string is `None`. */
  datatype Dataset = Dataset(
    id: Option<Bytes>,
    title: Option<Bytes>,
    description: Option<Bytes>,
    organization: Option<Organisation>,
    tags: Option<seq<Option<Bytes>>>,
    enrichedKeywords: Option<seq<Option<Bytes>>>,
    resources: Option<seq<SourceResource>>)

  /** The part of a `Ressource` the search fills in; `format` is `None` when
      the MIME type is not recognised and the field is left as constructed. */
  datatype Fichier = Fichier(url: Bytes, titre: Bytes, format: Option<FormatFichier>)

  /** The part of a `JeuDeDonnees` the search fills in. */
  datatype Jeu = Jeu(
    id: Bytes,
    titre: Bytes,
    description: Bytes,
    organisation: Bytes,
    organisationCertifiee: bool,
    ressources: seq<Fichier>)

  /** `ResultatRecherche` without the timing and the API query text. */
  datatype Resultat = Resultat(jeux: seq<Jeu>, totalResultats: int, pageCourante: int, totalPages: int)

  // ---------------------------------------------------------------------
  // Query words: `while (ss >> word)`

  /** The end of the word starting at `i`: the first whitespace byte at or
      after `i`, or the end of the text. */
  function WordEnd(s: Bytes, i: nat): (j: nat)
    requires i <= |s|
    ensures i <= j <= |s|
    ensures forall k :: i <= k < j ==> !IsSpace(s[k])
    ensures j < |s| ==> IsSpace(s[j])
    decreases |s| - i
  {
    if i == |s| || IsSpace(s[i]) then i else WordEnd(s, i + 1)
  }

  /** The whitespace-separated words of `s` from position `i` on. */
  function WordsFrom(s: Bytes, i: nat): seq<Bytes>
    requires i <= |s|
    decreases |s| - i
  {
    if i == |s| then []
    else if IsSpace(s[i]) then WordsFrom(s, i + 1)
    else [s[i..WordEnd(s, i)]] + WordsFrom(s, WordEnd(s, i))
  }

  function Words(s: Bytes): seq<Bytes> {
    WordsFrom(s, 0)
  }

  /** Extraction of the words of the normalised query, one at a time. */
  method SplitWords(s: Bytes) returns (words: seq<Bytes>)
    ensures words == Words(s)
  {
    words := [];
    var i := 0;
    while i < |s|
      invariant 0 <= i <= |s|
      invariant words + WordsFrom(s, i) == Words(s)
      decreases |s| - i
    {
      if IsSpace(s[i]) {
        i := i + 1;
      } else {
        var j := i;
        while j < |s| && !IsSpace(s[j])
          invariant i <= j <= |s|
          invariant WordEnd(s, j) == WordEnd(s, i)
          decreases |s| - j
        {
          j := j + 1;
        }
        assert (words + [s[i..j]]) + WordsFrom(s, j) == words + WordsFrom(s, i);
        words := words + [s[i..j]];
        i := j;
      }
    }
  }

  /** Every word is non-empty and holds no whitespace. */
  predicate IsWord(w: Bytes) {
    w != [] && forall k :: 0 <= k < |w| ==> !IsSpace(w[k])
  }

  lemma {:induction false} WordsFromAreWords(s: Bytes, i: nat)
    requires i <= |s|
    ensures forall k :: 0 <= k < |WordsFrom(s, i)| ==> IsWord(WordsFrom(s, i)[k])
    decreases |s| - i
  {
    if i < |s| {
      if IsSpace(s[i]) {
        WordsFromAreWords(s, i + 1);
      } else {
        var j := WordEnd(s, i);
        WordsFromAreWords(s, j);
        var w := s[i..j];
        assert forall k :: 0 <= k < |w| ==> w[k] == s[i + k];
      }
    }
  }

  /** The words of `s`, separated by single spaces. */
  function Unwords(ws: seq<Bytes>): Bytes {
    if ws == [] then []
    else if |ws| == 1 then ws[0]
    else ws[0] + " " + Unwords(ws[1..])
  }

  lemma {:induction false} WordEndShift(a: Bytes, b: Bytes, i: nat)
    requires i <= |b|
    ensures WordEnd(a + b, |a| + i) == |a| + WordEnd(b, i)
    decreases |b| - i
  {
    if i < |b| {
      assert (a + b)[|a| + i] == b[i];
      if !IsSpace(b[i]) {
        WordEndShift(a, b, i + 1);
      }
    }
  }

  /** Words past a prefix are the words of the rest. */
  lemma {:induction false} WordsFromShift(a: Bytes, b: Bytes, i: nat)
    requires i <= |b|
    ensures WordsFrom(a + b, |a| + i) == WordsFrom(b, i)
    decreases |b| - i
  {
    if i < |b| {
      var s := a + b;
      assert s[|a| + i] == b[i];
      if IsSpace(b[i]) {
        WordsFromShift(a, b, i + 1);
      } else {
        var j := WordEnd(b, i);
        calc {
          WordsFrom(s, |a| + i);
        == { WordEndShift(a, b, i); }
          [s[|a| + i..|a| + j]] + WordsFrom(s, |a| + j);
        == { assert s[|a| + i..|a| + j] == b[i..j]; WordsFromShift(a, b, j); }
          [b[i..j]] + WordsFrom(b, j);
        }
      }
    }
  }

  /** The first word of a text that starts with a word and a space. */
  lemma FirstWord(w: Bytes, rest: Bytes)
    requires IsWord(w)
    ensures Words(w + " " + rest) == [w] + Words(rest)
  {
    var s := w + " " + rest;
    assert forall k :: 0 <= k < |w| ==> s[k] == w[k];
    assert s[|w|] == ' ';
    WordEndAt(s, 0, |w|);
    assert s[..|w|] == w;
    assert WordsFrom(s, |w|) == WordsFrom(s, |w| + 1);
    WordsFromShift(w + " ", rest, 0);
    assert w + " " + rest == (w + " ") + rest;
  }

  lemma {:induction false} WordEndAt(s: Bytes, i: nat, j: nat)
    requires i <= j < |s| && IsSpace(s[j])
    requires forall k :: i <= k < j ==> !IsSpace(s[k])
    ensures WordEnd(s, i) == j
    decreases j - i
  {
    if i < j {
      WordEndAt(s, i + 1, j);
    }
  }

  /** A single word is its own word list. */
  lemma LastWord(w: Bytes)
    requires IsWord(w)
    ensures Words(w) == [w]
  {
    WordEndAll(w, 0);
    assert w[0..|w|] == w;
    assert WordsFrom(w, |w|) == [];
  }

  lemma {:induction false} WordEndAll(s: Bytes, i: nat)
    requires i <= |s|
    requires forall k :: i <= k < |s| ==> !IsSpace(s[k])
    ensures WordEnd(s, i) == |s|
    decreases |s| - i
  {
    if i < |s| {
      WordEndAll(s, i + 1);
    }
  }

  /** Splitting undoes joining with single spaces. */
  lemma {:induction false} WordsOfUnwords(ws: seq<Bytes>)
    requires forall k :: 0 <= k < |ws| ==> IsWord(ws[k])
    ensures Words(Unwords(ws)) == ws
  {
    if |ws| == 1 {
      LastWord(ws[0]);
    } else if |ws| > 1 {
      WordsOfUnwords(ws[1..]);
      FirstWord(ws[0], Unwords(ws[1..]));
    }
  }

  // ---------------------------------------------------------------------
  // Certification

  predicate CertifyingKind(kind: Option<Bytes>) {
    kind.Some? && (kind.value == "public-service" || kind.value == "certified" || kind.value == "spd")
  }

  /** The organisation carries a badge of a certifying kind. */
  predicate Certified(d: Dataset) {
    d.organization.Some? && d.organization.value.badges.Some?
    && exists k :: 0 <= k < |d.organization.value.badges.value|
                   && CertifyingKind(d.organization.value.badges.value[k].kind)
  }

  /** The badge scan, stopping at the first certifying badge. */
  method EstCertifie(d: Dataset) returns (isCertified: bool)
    ensures isCertified == Certified(d)
  {
    isCertified := false;
    if d.organization.Some? && d.organization.value.badges.Some? {
      var badges := d.organization.value.badges.value;
      for k := 0 to |badges|
        invariant !isCertified
        invariant forall m :: 0 <= m < k ==> !CertifyingKind(badges[m].kind)
      {
        var kind := badges[k].kind;
        if kind.Some? && (kind.value == "public-service" || kind.value == "certified" || kind.value == "spd") {
          isCertified := true;
          return;
        }
      }
    }
  }

  // ---------------------------------------------------------------------
  // Text matching

  /** A present string followed by a space. */
  function Spaced(x: Option<Bytes>): Bytes {
    if x.Some? then x.value + " " else []
  }

  /** Each present string of a list, each followed by a space. */
  function SpacedAll(xs: seq<Option<Bytes>>): Bytes {
    if xs == [] then [] else SpacedAll(xs[..|xs| - 1]) + Spaced(xs[|xs| - 1])
  }

  function SpacedList(xs: Option<seq<Option<Bytes>>>): Bytes {
    if xs.Some? then SpacedAll(xs.value) else []
  }

  /** The searchable text: title, description, tags and enriched keywords. */
  function CorpusOf(d: Dataset): Bytes {
    Spaced(d.title) + Spaced(d.description) + SpacedList(d.tags) + SpacedList(d.enrichedKeywords)
  }

  lemma SpacedAllSnoc(items: seq<Option<Bytes>>, k: nat)
    requires k < |items|
    ensures SpacedAll(items[..k + 1]) == SpacedAll(items[..k]) + Spaced(items[k])
  {
    assert items[..k + 1][..k] == items[..k];
  }

  method AppendSpaced(text: Bytes, xs: Option<seq<Option<Bytes>>>) returns (text': Bytes)
    ensures text' == text + SpacedList(xs)
  {
    text' := text;
    if xs.Some? {
      var items := xs.value;
      for k := 0 to |items|
        invariant text' == text + SpacedAll(items[..k])
      {
        SpacedAllSnoc(items, k);
        if items[k].Some? {
          text' := text' + (items[k].value + " ");
        }
        assert text' == (text + SpacedAll(items[..k])) + Spaced(items[k]);
      }
      assert items[..|items|] == items;
    }
  }

  /** The corpus, built field after field. */
  method ConstruireCorpus(d: Dataset) returns (text: Bytes)
    ensures text == CorpusOf(d)
  {
    text := [];
    if d.title.Some? {
      text := text + (d.title.value + " ");
    }
    if d.description.Some? {
      text := text + (d.description.value + " ");
    }
    text := AppendSpaced(text, d.tags);
    text := AppendSpaced(text, d.enrichedKeywords);
  }

  /** Every present tag occurs in the corpus, followed by a space. */
  lemma {:induction false} TagInSpacedAll(xs: seq<Option<Bytes>>, k: nat) returns (off: nat)
    requires k < |xs| && xs[k].Some?
    ensures OccursAt(SpacedAll(xs), xs[k].value + " ", off)
    decreases |xs|
  {
    var init := xs[..|xs| - 1];
    var t := xs[k].value + " ";
    if k == |xs| - 1 {
      off := |SpacedAll(init)|;
      assert SpacedAll(xs)[off..off + |t|] == t;
    } else {
      off := TagInSpacedAll(init, k);
      assert SpacedAll(xs) == SpacedAll(init) + Spaced(xs[|xs| - 1]);
      assert SpacedAll(xs)[off..off + |t|] == SpacedAll(init)[off..off + |t|];
    }
  }

  lemma TagInCorpus(d: Dataset, k: nat)
    requires d.tags.Some? && k < |d.tags.value| && d.tags.value[k].Some?
    ensures Contains(CorpusOf(d), d.tags.value[k].value + " ")
  {
    var off := TagInSpacedAll(d.tags.value, k);
    var front := Spaced(d.title) + Spaced(d.description);
    OccursInFront(front, SpacedAll(d.tags.value), SpacedList(d.enrichedKeywords), d.tags.value[k].value + " ", off);
    assert CorpusOf(d) == front + SpacedAll(d.tags.value) + SpacedList(d.enrichedKeywords);
    assert OccursAt(CorpusOf(d), d.tags.value[k].value + " ", |front| + off);
  }

  lemma OccursInFront(a: Bytes, b: Bytes, c: Bytes, t: Bytes, off: nat)
    requires OccursAt(b, t, off)
    ensures OccursAt(a + b + c, t, |a| + off)
  {
    OccursShift(a, b, t, off);
    assert (a + b + c)[..|a + b|] == a + b;
  }

  /** `std::string::find` from the start: an empty needle is found at 0. */
  function StrFind(s: Bytes, w: Bytes): Option<nat> {
    if w == [] then Some(0) else Find(s, w, 0)
  }

  lemma StrFindContains(s: Bytes, w: Bytes)
    ensures StrFind(s, w).Some? <==> Contains(s, w)
  {
    if w == [] {
      assert OccursAt(s, w, 0);
    } else if StrFind(s, w).Some? {
      assert OccursAt(s, w, StrFind(s, w).value);
    }
  }

  /** Every query word occurs in the normalised corpus. */
  predicate AllWordsIn(words: seq<Bytes>, corpus: Bytes) {
    forall k :: 0 <= k < |words| ==> Contains(corpus, words[k])
  }

  /** The word loop, stopping at the first missing word. */
  method ToutesPresentes(words: seq<Bytes>, corpus: Bytes) returns (found: bool)
    ensures found == AllWordsIn(words, corpus)
  {
    found := true;
    for k := 0 to |words|
      invariant found
      invariant forall m :: 0 <= m < k ==> Contains(corpus, words[m])
    {
      StrFindContains(corpus, words[k]);
      if StrFind(corpus, words[k]).None? {
        found := false;
        return;
      }
    }
  }

  // ---------------------------------------------------------------------
  // Theme matching

  /** One of the dataset's string tags is, exactly, one of the theme's
      tags. */
  predicate ThemeMatch(d: Dataset, themeTags: seq<Bytes>) {
    d.tags.Some?
    && exists i, j :: 0 <= i < |d.tags.value| && 0 <= j < |themeTags| && d.tags.value[i] == Some(themeTags[j])
  }

  /** The nested tag loops, each stopping at the first match. */
  method CorrespondTheme(d: Dataset, themeTags: seq<Bytes>) returns (themeMatch: bool)
    ensures themeMatch == ThemeMatch(d, themeTags)
  {
    themeMatch := false;
    if d.tags.Some? {
      var tags := d.tags.value;
      for i := 0 to |tags|
        invariant !themeMatch
        invariant forall a, b :: 0 <= a < i && 0 <= b < |themeTags| ==> tags[a] != Some(themeTags[b])
      {
        if tags[i].Some? {
          for j := 0 to |themeTags|
            invariant !themeMatch
            invariant forall b :: 0 <= b < j ==> tags[i] != Some(themeTags[b])
          {
            if themeTags[j] == tags[i].value {
              themeMatch := true;
              break;
            }
          }
        }
        if themeMatch {
          return;
        }
      }
    }
  }

  // ---------------------------------------------------------------------
  // The search

  /** The words of the normalised query; none for an empty query. `norm` is
      the text normaliser. */
  function QueryWords(c: Criteres, norm: Bytes -> Bytes): seq<Bytes> {
    if c.requete == [] then [] else Words(norm(c.requete))
  }

  /** Whether a dataset passes the three filters, in the order of the
      code. */
  predicate Kept(d: Dataset, c: Criteres, words: seq<Bytes>, norm: Bytes -> Bytes) {
    (!c.uniquementCertifiees || Certified(d))
    && (words == [] || AllWordsIn(words, norm(CorpusOf(d))))
    && (c.thematique == Thematique.TOUTES || ThemeMatch(d, ThemeTags(c.thematique)))
  }

  function OrEmpty(x: Option<Bytes>): Bytes {
    if x.Some? then x.value else []
  }

  function FichierOf(r: SourceResource): Fichier {
    Fichier(OrEmpty(r.url), OrEmpty(r.title), MimeToFormat(OrEmpty(r.mime)))
  }

  function FichiersOf(rs: seq<SourceResource>): (fs: seq<Fichier>)
    ensures |fs| == |rs|
    ensures forall k :: 0 <= k < |rs| ==> fs[k] == FichierOf(rs[k])
  {
    if rs == [] then [] else FichiersOf(rs[..|rs| - 1]) + [FichierOf(rs[|rs| - 1])]
  }

  /** The dataset record the search returns for a kept dataset. */
  function JeuOf(d: Dataset): Jeu {
    Jeu(
      OrEmpty(d.id), OrEmpty(d.title), OrEmpty(d.description),
      if d.organization.Some? then OrEmpty(d.organization.value.name) else [],
      Certified(d),
      if d.resources.Some? then FichiersOf(d.resources.value) else [])
  }

  /** Building the record, resource by resource. */
  method ConstruireJeu(d: Dataset) returns (jeu: Jeu)
    ensures jeu == JeuOf(d)
  {
    var isCertified := EstCertifie(d);
    var ressources: seq<Fichier> := [];
    if d.resources.Some? {
      var rs := d.resources.value;
      for k := 0 to |rs|
        invariant ressources == FichiersOf(rs[..k])
      {
        assert rs[..k + 1][..k] == rs[..k];
        var mime: Bytes := [];
        if rs[k].mime.Some? {
          mime := rs[k].mime.value;
        }
        ressources := ressources + [Fichier(OrEmpty(rs[k].url), OrEmpty(rs[k].title), MimeToFormat(mime))];
      }
      assert rs[..|rs|] == rs;
    }
    var organisation: Bytes := [];
    if d.organization.Some? && d.organization.value.name.Some? {
      organisation := d.organization.value.name.value;
    }
    jeu := Jeu(OrEmpty(d.id), OrEmpty(d.title), OrEmpty(d.description), organisation, isCertified, ressources);
  }

  /** The records of the kept datasets, in file order. */
  function Matches(docs: seq<Dataset>, c: Criteres, words: seq<Bytes>, norm: Bytes -> Bytes): seq<Jeu> {
    if docs == [] then []
    else
      var prev := Matches(docs[..|docs| - 1], c, words, norm);
      var d := docs[|docs| - 1];
      if Kept(d, c, words, norm) then prev + [JeuOf(d)] else prev
  }

  // ---------------------------------------------------------------------
  // Pagination

  /** `(total + parPage - 1) / parPage` when both are positive, else 0. */
  function TotalPages(n: int, parPage: int): int {
    if n > 0 && parPage > 0 then (n + parPage - 1) / parPage else 0
  }

  /** The page count is the least number of full pages holding every
      result. */
  lemma TotalPagesIsCeiling(n: int, parPage: int)
    requires n > 0 && parPage > 0
    ensures (TotalPages(n, parPage) - 1) * parPage < n <= TotalPages(n, parPage) * parPage
  {
    var t := TotalPages(n, parPage);
    var r := (n + parPage - 1) % parPage;
    assert n + parPage - 1 == t * parPage + r;
  }

  /** The first index of a page. */
  function PageStart(page: int, parPage: int): int {
    (page - 1) * parPage
  }

  function Min(a: int, b: int): int {
    if a < b then a else b
  }

  /** The indices the page loop reads, as written: from the first index of
      the page up to the end of the page or of the results, whenever the
      first index is below the result count, even when it is negative. */
  function PageIndicesAsWritten(page: int, parPage: int, n: int): seq<int> {
    var start := PageStart(page, parPage);
    if start < n then
      var end := Min(start + parPage, n);
      if start < end then seq(end - start, k => start + k) else []
    else []
  }

  /** Page 0 of one result per page reads the result at index -1. */
  lemma PageZeroReadsBeforeFirst()
    ensures PageIndicesAsWritten(0, 1, 1) == [-1]
  {
  }

  /** The page as the code evidently intends it: empty unless its first
      index is a valid result index. */
  function PageSlice<T>(ms: seq<T>, page: int, parPage: int): (p: seq<T>)
    ensures |p| <= if parPage > 0 then parPage else 0
    ensures p != [] ==> 0 <= PageStart(page, parPage) && PageStart(page, parPage) + |p| <= |ms|
    ensures forall k :: 0 <= k < |p| ==> p[k] == ms[PageStart(page, parPage) + k]
  {
    var start := PageStart(page, parPage);
    if 0 <= start < |ms| then
      var end := Min(start + parPage, |ms|);
      if start < end then ms[start..end] else []
    else []
  }

  /** From page 1 on, a page starts at a valid index or its page size is
      negative. */
  lemma StartFromPageOne(page: int, parPage: int)
    requires page >= 1
    ensures PageStart(page, parPage) >= 0 || parPage < 0
  {
    if parPage >= 0 {
      assert (page - 1) * parPage >= 0;
    }
  }

  /** For the pages the code is meant for (numbered from 1), the corrected
      page is exactly what the loop reads, and every index it reads is a
      valid one. */
  lemma PageSliceAgrees<T>(ms: seq<T>, page: int, parPage: int)
    requires page >= 1
    ensures var idx := PageIndicesAsWritten(page, parPage, |ms|);
            (forall k :: 0 <= k < |idx| ==> 0 <= idx[k] < |ms|)
            && |PageSlice(ms, page, parPage)| == |idx|
            && forall k :: 0 <= k < |idx| ==> PageSlice(ms, page, parPage)[k] == ms[idx[k]]
  {
    StartFromPageOne(page, parPage);
  }

  /** The page and the position of result `k` when pages hold `parPage`
      results. */
  lemma PageOfIndex(parPage: int, k: nat)
    requires parPage > 0
    ensures PageStart(k / parPage + 1, parPage) == k - k % parPage
    ensures 0 <= k % parPage < parPage
  {
    assert PageStart(k / parPage + 1, parPage) == (k / parPage) * parPage;
  }

  /** A page number is within the page count when its first index is a
      result index. */
  lemma PageWithinCount(n: int, parPage: int, page: int)
    requires n > 0 && parPage > 0 && page >= 1 && PageStart(page, parPage) < n
    ensures page <= TotalPages(n, parPage)
  {
    TotalPagesIsCeiling(n, parPage);
  }

  /** Every result is on exactly the page its index says, at the position
      its index says, and that page is within the page count. */
  lemma EveryResultOnItsPage<T>(ms: seq<T>, parPage: int, k: nat)
    requires parPage > 0 && k < |ms|
    ensures 1 <= k / parPage + 1 <= TotalPages(|ms|, parPage)
    ensures k % parPage < |PageSlice(ms, k / parPage + 1, parPage)|
    ensures PageSlice(ms, k / parPage + 1, parPage)[k % parPage] == ms[k]
  {
    PageOfIndex(parPage, k);
    PageWithinCount(|ms|, parPage, k / parPage + 1);
  }

  /** No page count without results or with a page size below 1. */
  lemma TotalPagesZero(n: int, parPage: int)
    ensures TotalPages(n, parPage) == 0 <==> n <= 0 || parPage <= 0
  {
    if n > 0 && parPage > 0 {
      assert n + parPage - 1 >= parPage;
      assert (n + parPage - 1) / parPage >= 1;
    }
  }

  /** The result of the search over a parsed dataset array. */
  function ResultOf(docs: seq<Dataset>, c: Criteres, norm: Bytes -> Bytes): Resultat {
    var ms := Matches(docs, c, QueryWords(c, norm), norm);
    Resultat(PageSlice(ms, c.page, c.parPage), |ms|, c.page, TotalPages(|ms|, c.parPage))
  }

  /** The dataset loop: the record of each kept dataset, in file order. */
  method Filtrer(docs: seq<Dataset>, c: Criteres, queryWords: seq<Bytes>) returns (allMatches: seq<Jeu>)
    ensures allMatches == Matches(docs, c, queryWords, Normalised)
  {
    var tagsThematique := ThemeTags(c.thematique);
    allMatches := [];
    for k := 0 to |docs|
      invariant allMatches == Matches(docs[..k], c, queryWords, Normalised)
    {
      assert docs[..k + 1][..k] == docs[..k];
      var d := docs[k];
      var kept := Garde(d, c, queryWords, tagsThematique);
      if kept {
        var jeu := ConstruireJeu(d);
        allMatches := allMatches + [jeu];
      }
    }
    assert docs[..|docs|] == docs;
  }

  /** The page loop, with the first index checked to be a valid index. */
  method Paginer(allMatches: seq<Jeu>, page: int, parPage: int) returns (jeux: seq<Jeu>)
    ensures jeux == PageSlice(allMatches, page, parPage)
  {
    jeux := [];
    var n := |allMatches|;
    var startIndex := (page - 1) * parPage;
    if 0 <= startIndex < n {
      var endIndex := Min(startIndex + parPage, n);
      var i := startIndex;
      while i < endIndex
        invariant startIndex <= i && (startIndex < endIndex ==> i <= endIndex)
        invariant jeux == allMatches[startIndex..if startIndex < endIndex then i else startIndex]
        decreases endIndex - i
      {
        jeux := jeux + [allMatches[i]];
        i := i + 1;
      }
    }
  }

  lemma ResultOfParts(docs: seq<Dataset>, c: Criteres, norm: Bytes -> Bytes, ms: seq<Jeu>)
    requires ms == Matches(docs, c, QueryWords(c, norm), norm)
    ensures ResultOf(docs, c, norm) == Resultat(PageSlice(ms, c.page, c.parPage), |ms|, c.page, TotalPages(|ms|, c.parPage))
  {
  }

  /** The words of the normalised query. */
  method MotsRequete(c: Criteres) returns (queryWords: seq<Bytes>)
    ensures queryWords == QueryWords(c, Normalised)
  {
    queryWords := [];
    if c.requete != [] {
      var requeteNorm := NormaliserTexte(c.requete);
      queryWords := SplitWords(requeteNorm);
    }
  }

  /** `rechercherLocal`, with the page loop guarded against a negative
      first index. */
  method RechercherLocal(doc: Option<seq<Dataset>>, c: Criteres) returns (resultat: Resultat)
    ensures doc.None? ==> resultat == Resultat([], 0, 0, 0)
    ensures doc.Some? ==> resultat == ResultOf(doc.value, c, Normalised)
  {
    if doc.None? {
      return Resultat([], 0, 0, 0);
    }
    var queryWords := MotsRequete(c);
    var allMatches := Filtrer(doc.value, c, queryWords);
    var n := |allMatches|;
    var totalPages := TotalPages(n, c.parPage);
    var jeux := Paginer(allMatches, c.page, c.parPage);
    resultat := Resultat(jeux, n, c.page, totalPages);
    ResultOfParts(doc.value, c, Normalised, allMatches);
  }

  /** The three filters for one dataset, each skipping the rest when it
      fails. */
  method Garde(d: Dataset, c: Criteres, queryWords: seq<Bytes>, tagsThematique: seq<Bytes>) returns (kept: bool)
    requires tagsThematique == ThemeTags(c.thematique)
    ensures kept == Kept(d, c, queryWords, Normalised)
  {
    var isCertified := EstCertifie(d);
    if c.uniquementCertifiees && !isCertified {
      return false;
    }
    if queryWords != [] {
      var corpus := ConstruireCorpus(d);
      var corpusNorm := NormaliserTexte(corpus);
      var found := ToutesPresentes(queryWords, corpusNorm);
      if !found {
        return false;
      }
    }
    if c.thematique != Thematique.TOUTES {
      var themeMatch := CorrespondTheme(d, tagsThematique);
      if !themeMatch {
        return false;
      }
    }
    return true;
  }

  // ---------------------------------------------------------------------
  // Properties of the search

  /** Each result is the record of a kept dataset of the input, and there
      are never more results than datasets. */
  lemma {:induction false} MatchesAreKept(docs: seq<Dataset>, c: Criteres, words: seq<Bytes>, norm: Bytes -> Bytes)
    ensures |Matches(docs, c, words, norm)| <= |docs|
    ensures forall j :: j in Matches(docs, c, words, norm) ==>
              exists d :: d in docs && Kept(d, c, words, norm) && j == JeuOf(d)
  {
    if docs != [] {
      var init := docs[..|docs| - 1];
      MatchesAreKept(init, c, words, norm);
      forall j | j in Matches(docs, c, words, norm)
        ensures exists d :: d in docs && Kept(d, c, words, norm) && j == JeuOf(d)
      {
        if j in Matches(init, c, words, norm) {
          var d :| d in init && Kept(d, c, words, norm) && j == JeuOf(d);
          assert d in docs;
        } else {
          assert docs[|docs| - 1] in docs;
        }
      }
    }
  }

  /** With only certified organisations asked for, every result says its
      organisation is certified. */
  lemma CertifiedOnlyResults(docs: seq<Dataset>, c: Criteres, words: seq<Bytes>, norm: Bytes -> Bytes)
    requires c.uniquementCertifiees
    ensures forall j :: j in Matches(docs, c, words, norm) ==> j.organisationCertifiee
  {
    MatchesAreKept(docs, c, words, norm);
  }

  /** With no query, no theme and no certification demand, every dataset is
      a result, in file order. */
  lemma {:induction false} NoFilterKeepsAll(docs: seq<Dataset>, c: Criteres, norm: Bytes -> Bytes)
    requires !c.uniquementCertifiees && c.thematique == Thematique.TOUTES
    ensures |Matches(docs, c, [], norm)| == |docs|
    ensures forall k :: 0 <= k < |docs| ==> Matches(docs, c, [], norm)[k] == JeuOf(docs[k])
  {
    if docs != [] {
      var init := docs[..|docs| - 1];
      NoFilterKeepsAll(init, c, norm);
    }
  }

  /** A dataset is dropped as soon as one query word is missing from its
      normalised text, and kept by the text filter when all are present. */
  lemma TextFilter(d: Dataset, c: Criteres, words: seq<Bytes>, norm: Bytes -> Bytes)
    requires !c.uniquementCertifiees && c.thematique == Thematique.TOUTES
    ensures Kept(d, c, words, norm) <==>
              forall k :: 0 <= k < |words| ==> Contains(norm(CorpusOf(d)), words[k])
  {
  }

  /** A theme keeps only datasets carrying one of its tags verbatim; in
      particular no dataset matches the transport theme unless it carries one
      of that theme's tags. */
  lemma ThemeFilter(d: Dataset, c: Criteres, words: seq<Bytes>, norm: Bytes -> Bytes)
    requires c.thematique != Thematique.TOUTES && Kept(d, c, words, norm)
    ensures d.tags.Some?
    ensures exists i :: 0 <= i < |d.tags.value| && d.tags.value[i].Some?
                        && d.tags.value[i].value in ThemeTags(c.thematique)
  {
    var i, j :| 0 <= i < |d.tags.value| && 0 <= j < |ThemeTags(c.thematique)|
                && d.tags.value[i] == Some(ThemeTags(c.thematique)[j]);
    assert d.tags.value[i].value in ThemeTags(c.thematique);
  }

  /** The count fields: the total is the number of kept datasets whatever
      the page, and the page holds at most the page size. */
  lemma ResultCounts(docs: seq<Dataset>, c: Criteres, norm: Bytes -> Bytes)
    ensures var r := ResultOf(docs, c, norm);
            r.totalResultats == |Matches(docs, c, QueryWords(c, norm), norm)| <= |docs|
            && r.pageCourante == c.page
            && |r.jeux| <= r.totalResultats
            && (c.parPage > 0 ==> |r.jeux| <= c.parPage)
            && (r.totalPages == 0 <==> r.totalResultats == 0 || c.parPage <= 0)
  {
    MatchesAreKept(docs, c, QueryWords(c, norm), norm);
    var n := |Matches(docs, c, QueryWords(c, norm), norm)|;
    TotalPagesZero(n, c.parPage);
  }
}
