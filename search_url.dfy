/** Assembly of the catalogue query URL (`construireURLRecherche` in
    src/search/SearchService.cpp): the base address, then one `key=value`
    parameter per criterion that is set, each followed by `&`, and finally
    the trailing `&` removed. The free-text query is normalised before it
    is encoded (`expandreRequete` only normalises). */
module SearchUrl {
  import opened Wrappers
  import opened Seqs
  import opened Bytes
  import opened Url
  import opened Normalise
  import opened Catalog

  /** `baseUrl_`. */
  const BaseUrl: Bytes := "https://www.data.gouv.fr/api/1"

  /** The fixed start of every query URL. */
  const Head: Bytes := "https://www.data.gouv.fr/api/1/datasets/?"

  /** The sort keys the catalogue spells differently. */
  function SortValue(tri: Bytes): Bytes {
    if tri == "created" then "-created"
    else if tri == "last_modified" then "-last_modified"
    else if tri == "downloads" then "-views"
    else tri
  }

  /** One encoded `tag=` parameter per tag, in order. */
  function TagParams(tags: seq<Bytes>): seq<Bytes> {
    if tags == [] then [] else TagParams(tags[..|tags| - 1]) + ["tag=" + Encoded(tags[|tags| - 1])]
  }

  function OptionalParam(key: Bytes, value: Option<Bytes>): seq<Bytes> {
    if value.Some? then [key + Encoded(value.value)] else []
  }

  /** Whether a `sort=` parameter is written. */
  predicate Sorted(c: Criteres) {
    c.tri != [] && c.tri != "relevance"
  }

  /** The encoded free-text query `q`, once normalised, when there is
      one. */
  function QueryParam(c: Criteres, q: Bytes): seq<Bytes> {
    if c.requete != [] then ["q=" + Encoded(q)] else []
  }

  /** The organisation, territory and schema filters, when set. */
  function FilterParams(c: Criteres): seq<Bytes> {
    OptionalParam("organization=", c.organisationId)
    + OptionalParam("geozone=", c.codeGeo)
    + OptionalParam("schema=", c.schemaRequis)
  }

  function PageParams(c: Criteres): seq<Bytes> {
    ["page=" + Decimal(c.page), "page_size=" + Decimal(c.parPage)]
  }

  function SortParam(c: Criteres): seq<Bytes> {
    if Sorted(c) then ["sort=" + Encoded(SortValue(c.tri))] else []
  }

  /** The parameters, in the order the code writes them, for the
      normalised query text `q`. */
  function Params(c: Criteres, q: Bytes): seq<Bytes> {
    Front(c, q) + PageParams(c) + SortParam(c)
  }

  /** The parameters before the page number. */
  function Front(c: Criteres, q: Bytes): seq<Bytes> {
    QueryParam(c, q) + TagParams(c.tags) + FilterParams(c)
  }

  /** The parameters separated by `&`. */
  function Join(ps: seq<Bytes>): Bytes {
    if ps == [] then []
    else if |ps| == 1 then ps[0]
    else ps[0] + "&" + Join(ps[1..])
  }

  /** The URL for the criteria and the normalised query text `q`. The
      properties below hold whatever the normaliser returns. */
  function UrlFor(c: Criteres, q: Bytes): Bytes {
    Head + Join(Params(c, q))
  }

  /** The reference reading of `construireURLRecherche`. */
  function SearchUrlOf(c: Criteres): Bytes {
    UrlFor(c, Normalised(c.requete))
  }

  /** What the stream holds before the trailing `&` is dropped: every
      parameter followed by `&`. */
  function Terminated(ps: seq<Bytes>): Bytes {
    if ps == [] then [] else Terminated(ps[..|ps| - 1]) + (ps[|ps| - 1] + "&")
  }

  lemma TerminatedSnoc(ps: seq<Bytes>, p: Bytes)
    ensures Terminated(ps + [p]) == Terminated(ps) + (p + "&")
  {
    assert (ps + [p])[..|ps|] == ps;
  }

  lemma {:induction false} TerminatedIsJoin(ps: seq<Bytes>)
    requires ps != []
    ensures Terminated(ps) == Join(ps) + "&"
    decreases |ps|
  {
    if |ps| > 1 {
      var init := ps[..|ps| - 1];
      TerminatedIsJoin(init);
      JoinSnoc(init, ps[|ps| - 1]);
      assert init + [ps[|ps| - 1]] == ps;
    }
  }

  lemma {:induction false} JoinSnoc(ps: seq<Bytes>, p: Bytes)
    requires ps != []
    ensures Join(ps + [p]) == Join(ps) + "&" + p
    decreases |ps|
  {
    if |ps| == 1 {
      assert (ps + [p])[1..] == [p];
    } else {
      assert (ps + [p])[1..] == ps[1..] + [p];
      JoinSnoc(ps[1..], p);
    }
  }

  /** One parameter written to the stream after `start`. */
  method Append(url: Bytes, ghost start: Bytes, ghost params: seq<Bytes>, p: Bytes)
    returns (url': Bytes, ghost params': seq<Bytes>)
    requires url == start + Terminated(params)
    ensures params' == params + [p]
    ensures url' == start + Terminated(params')
  {
    url' := url + (p + "&");
    params' := params + [p];
    TerminatedSnoc(params, p);
    assert url' == start + (Terminated(params) + (p + "&"));
  }

  /** An optional filter: written, encoded, only when it is set. */
  method AppendOptional(url: Bytes, ghost start: Bytes, ghost params: seq<Bytes>, key: Bytes, value: Option<Bytes>)
    returns (url': Bytes, ghost params': seq<Bytes>)
    requires url == start + Terminated(params)
    ensures params' == params + OptionalParam(key, value)
    ensures url' == start + Terminated(params')
  {
    url', params' := url, params;
    if value.Some? {
      var encoded := UrlEncode(value.value);
      url', params' := Append(url', start, params', key + encoded);
    }
  }

  /** The tags, in order, each encoded. */
  lemma TagParamsSnoc(tags: seq<Bytes>, i: nat)
    requires i < |tags|
    ensures TagParams(tags[..i + 1]) == TagParams(tags[..i]) + ["tag=" + Encoded(tags[i])]
  {
    assert tags[..i + 1][..i] == tags[..i];
  }

  method AppendTags(url: Bytes, ghost start: Bytes, ghost params: seq<Bytes>, tags: seq<Bytes>)
    returns (url': Bytes, ghost params': seq<Bytes>)
    requires url == start + Terminated(params)
    ensures params' == params + TagParams(tags)
    ensures url' == start + Terminated(params')
  {
    url', params' := url, params;
    for i := 0 to |tags|
      invariant params' == params + TagParams(tags[..i])
      invariant url' == start + Terminated(params')
    {
      var encoded := UrlEncode(tags[i]);
      TagParamsSnoc(tags, i);
      url', params' := Append(url', start, params', "tag=" + encoded);
    }
    assert tags[..|tags|] == tags;
  }

  /** The catalogue's spelling of a sort key. */
  method SortKey(tri: Bytes) returns (sortParam: Bytes)
    ensures sortParam == SortValue(tri)
  {
    sortParam := tri;
    if sortParam == "created" {
      sortParam := "-created";
    } else if sortParam == "last_modified" {
      sortParam := "-last_modified";
    } else if sortParam == "downloads" {
      sortParam := "-views";
    }
  }

  /** The three optional filters, in the order of the code. */
  method AppendFilters(url: Bytes, ghost start: Bytes, ghost params: seq<Bytes>, c: Criteres)
    returns (url': Bytes, ghost params': seq<Bytes>)
    requires url == start + Terminated(params)
    ensures params' == params + FilterParams(c)
    ensures url' == start + Terminated(params')
  {
    var o := OptionalParam("organization=", c.organisationId);
    var g := OptionalParam("geozone=", c.codeGeo);
    url', params' := AppendOptional(url, start, params, "organization=", c.organisationId);
    url', params' := AppendOptional(url', start, params', "geozone=", c.codeGeo);
    url', params' := AppendOptional(url', start, params', "schema=", c.schemaRequis);
    Regroup3(params, o, g, OptionalParam("schema=", c.schemaRequis));
  }

  lemma Regroup3(a: seq<Bytes>, b: seq<Bytes>, c: seq<Bytes>, d: seq<Bytes>)
    ensures ((a + b) + c) + d == a + ((b + c) + d)
  {
  }

  /** The page number and the page size. */
  method AppendPage(url: Bytes, ghost start: Bytes, ghost params: seq<Bytes>, c: Criteres)
    returns (url': Bytes, ghost params': seq<Bytes>)
    requires url == start + Terminated(params)
    ensures params' == params + PageParams(c)
    ensures url' == start + Terminated(params')
  {
    url', params' := Append(url, start, params, "page=" + Decimal(c.page));
    url', params' := Append(url', start, params', "page_size=" + Decimal(c.parPage));
  }

  /** The sort key, unless it is empty or `relevance`. */
  method AppendSort(url: Bytes, ghost start: Bytes, ghost params: seq<Bytes>, c: Criteres)
    returns (url': Bytes, ghost params': seq<Bytes>)
    requires url == start + Terminated(params)
    ensures params' == params + SortParam(c)
    ensures url' == start + Terminated(params')
  {
    url', params' := url, params;
    if c.tri != [] && c.tri != "relevance" {
      var sortParam := SortKey(c.tri);
      var encoded := UrlEncode(sortParam);
      url', params' := Append(url', start, params', "sort=" + encoded);
    }
  }

  /** `construireURLRecherche`. */
  method ConstruireUrlRecherche(c: Criteres) returns (result: Bytes)
    ensures result == SearchUrlOf(c)
  {
    var url := Head;
    ghost var start := url;
    ghost var params: seq<Bytes> := [];
    ghost var q := Normalised(c.requete);
    assert url == start + Terminated(params);
    if c.requete != [] {
      var requeteNormalisee := NormaliserTexte(c.requete);
      var encoded := UrlEncode(requeteNormalisee);
      url, params := Append(url, start, params, "q=" + encoded);
    }
    assert params == QueryParam(c, q);
    url, params := AppendTags(url, start, params, c.tags);
    url, params := AppendFilters(url, start, params, c);
    url, params := AppendPage(url, start, params, c);
    url, params := AppendSort(url, start, params, c);
    assert params == Params(c, q);
    DropAmpersand(url, start, params);
    result := url;
    if result != [] && result[|result| - 1] == '&' {
      result := result[..|result| - 1];
    }
  }

  /** Dropping the last character of the stream leaves the joined
      parameters. */
  lemma DropAmpersand(url: Bytes, start: Bytes, params: seq<Bytes>)
    requires url == start + Terminated(params) && params != []
    ensures url != [] && url[|url| - 1] == '&'
    ensures url[..|url| - 1] == start + Join(params)
  {
    TerminatedIsJoin(params);
    assert url == (start + Join(params)) + "&";
  }

  // ---------------------------------------------------------------------
  // Properties of the URL

  /** Every URL starts with the base address and `/datasets/?`. */
  lemma PrefixOfConcat(a: Bytes, b: Bytes)
    ensures IsPrefix(a, a + b)
  {
    assert (a + b)[..|a|] == a;
  }

  lemma StartsWithHead(c: Criteres, q: Bytes)
    ensures IsPrefix(BaseUrl + "/datasets/?", UrlFor(c, q))
  {
    assert BaseUrl + "/datasets/?" == Head;
    PrefixOfConcat(Head, Join(Params(c, q)));
  }

  /** Each parameter appears in the joined text, at a known offset. */
  lemma {:induction false} JoinHas(ps: seq<Bytes>, k: nat) returns (off: nat)
    requires k < |ps|
    ensures OccursAt(Join(ps), ps[k], off)
    decreases |ps|
  {
    if k == 0 {
      off := 0;
      if |ps| > 1 {
        assert Join(ps)[..|ps[0]|] == ps[0];
      }
    } else {
      var rest := JoinHas(ps[1..], k - 1);
      off := |ps[0]| + 1 + rest;
      var j := Join(ps[1..]);
      assert Join(ps) == (ps[0] + "&") + j;
      assert Join(ps)[off..off + |ps[k]|] == j[rest..rest + |ps[k]|];
    }
  }

  /** Where the page parameters sit: just before the optional sort. */
  lemma PagePosition(c: Criteres, q: Bytes) returns (n: nat)
    ensures n + 1 < |Params(c, q)|
    ensures Params(c, q)[n] == "page=" + Decimal(c.page)
    ensures Params(c, q)[n + 1] == "page_size=" + Decimal(c.parPage)
  {
    var front := QueryParam(c, q) + TagParams(c.tags) + FilterParams(c);
    n := |front|;
    assert Params(c, q) == front + PageParams(c) + SortParam(c);
  }

  /** A parameter of the list is a factor of the URL. */
  lemma InUrl(c: Criteres, q: Bytes, k: nat)
    requires k < |Params(c, q)|
    ensures Contains(UrlFor(c, q), Params(c, q)[k])
  {
    var ps := Params(c, q);
    var off := JoinHas(ps, k);
    OccursShift(Head, Join(ps), ps[k], off);
    assert OccursAt(UrlFor(c, q), ps[k], |Head| + off);
  }

  /** The page parameters are always written, with the page and the page
      size in decimal. */
  lemma HasPageParams(c: Criteres, q: Bytes)
    ensures Contains<Byte>(UrlFor(c, q), "page=" + Decimal(c.page))
    ensures Contains<Byte>(UrlFor(c, q), "page_size=" + Decimal(c.parPage))
  {
    var n := PagePosition(c, q);
    InUrl(c, q, n);
    InUrl(c, q, n + 1);
  }

  lemma {:induction false} JoinLast(ps: seq<Bytes>)
    requires ps != [] && ps[|ps| - 1] != []
    ensures Join(ps) != [] && Join(ps)[|Join(ps)| - 1] == ps[|ps| - 1][|ps[|ps| - 1]| - 1]
    decreases |ps|
  {
    if |ps| > 1 {
      JoinLast(ps[1..]);
    }
  }

  /** The last parameter is the sort key when one is written, and the page
      size otherwise. */
  lemma LastParameter(c: Criteres, q: Bytes)
    ensures Sorted(c) ==> Params(c, q)[|Params(c, q)| - 1] == "sort=" + Encoded(SortValue(c.tri))
    ensures !Sorted(c) ==> Params(c, q)[|Params(c, q)| - 1] == "page_size=" + Decimal(c.parPage)
  {

  }

  /** An encoded sort parameter ends with a byte other than `&`. */
  lemma SortParamEnd(v: Bytes)
    requires v != []
    ensures var p := "sort=" + Encoded(v); p[|p| - 1] != '&'
  {
    EncodedLength(v);
    EncodedAlphabet(v);
    var p := "sort=" + Encoded(v);
    assert p[|p| - 1] == Encoded(v)[|Encoded(v)| - 1];
  }

  /** A page-size parameter ends with a digit. */
  lemma PageSizeEnd(n: int)
    ensures var p := "page_size=" + Decimal(n); p[|p| - 1] != '&'
  {
    var p := "page_size=" + Decimal(n);
    assert p[|p| - 1] == Decimal(n)[|Decimal(n)| - 1];
  }

  /** The last parameter is not empty and does not end with `&`. */
  lemma LastParameterEnd(c: Criteres, q: Bytes)
    ensures Params(c, q) != [] && Params(c, q)[|Params(c, q)| - 1] != []
    ensures var last := Params(c, q)[|Params(c, q)| - 1]; last[|last| - 1] != '&'
  {
    LastParameter(c, q);
    if Sorted(c) {
      SortParamEnd(SortValue(c.tri));
    } else {
      PageSizeEnd(c.parPage);
    }
  }

  /** The URL never ends with `&`: the last parameter is the page size in
      decimal or a non-empty encoded sort key, neither of which ends with
      `&`. */
  lemma NeverEndsWithAmpersand(c: Criteres, q: Bytes)
    ensures UrlFor(c, q)[|UrlFor(c, q)| - 1] != '&'
  {
    var ps := Params(c, q);
    LastParameterEnd(c, q);
    JoinLast(ps);
    var j := Join(ps);
    assert UrlFor(c, q) == Head + j;
    assert UrlFor(c, q)[|UrlFor(c, q)| - 1] == j[|j| - 1];
  }

  /** No parameter of the list begins with `sort=`. */
  predicate NoSort(ps: seq<Bytes>) {
    forall i :: 0 <= i < |ps| ==> !IsPrefix<Byte>("sort=", ps[i])
  }

  lemma NoSortConcat(a: seq<Bytes>, b: seq<Bytes>)
    requires NoSort(a) && NoSort(b)
    ensures NoSort(a + b)
  {
    forall i | 0 <= i < |a + b| ensures !IsPrefix<Byte>("sort=", (a + b)[i]) {
      if i < |a| {
        assert (a + b)[i] == a[i];
      } else {
        assert (a + b)[i] == b[i - |a|];
      }
    }
  }


  /** A parameter whose key differs from `sort=` in its first two bytes. */
  lemma OtherKey(key: Bytes, v: Bytes)
    requires |key| >= 2 && (key[0] != 's' || key[1] != 'o')
    ensures NoSort([key + v])
  {
    var p := key + v;
    assert p[0] == key[0] && p[1] == key[1];
  }

  lemma {:induction false} TagsAreNotSort(tags: seq<Bytes>)
    ensures NoSort(TagParams(tags))
  {
    if tags != [] {
      TagsAreNotSort(tags[..|tags| - 1]);
      OtherKey("tag=", Encoded(tags[|tags| - 1]));
      NoSortConcat(TagParams(tags[..|tags| - 1]), ["tag=" + Encoded(tags[|tags| - 1])]);
    }
  }

  lemma FiltersAreNotSort(c: Criteres)
    ensures NoSort(FilterParams(c))
  {
    var o := OptionalParam("organization=", c.organisationId);
    var g := OptionalParam("geozone=", c.codeGeo);
    var s := OptionalParam("schema=", c.schemaRequis);
    if c.organisationId.Some? { OtherKey("organization=", Encoded(c.organisationId.value)); }
    if c.codeGeo.Some? { OtherKey("geozone=", Encoded(c.codeGeo.value)); }
    if c.schemaRequis.Some? { OtherKey("schema=", Encoded(c.schemaRequis.value)); }
    NoSortConcat(o, g);
    NoSortConcat(o + g, s);
  }

  lemma FrontHasNoSort(c: Criteres, q: Bytes)
    ensures NoSort(Front(c, q))
  {
    if c.requete != [] { OtherKey("q=", Encoded(q)); }
    TagsAreNotSort(c.tags);
    NoSortConcat(QueryParam(c, q), TagParams(c.tags));
    FiltersAreNotSort(c);
    NoSortConcat(QueryParam(c, q) + TagParams(c.tags), FilterParams(c));
  }

  lemma PageHasNoSort(c: Criteres)
    ensures NoSort(PageParams(c))
  {
    OtherKey("page=", Decimal(c.page));
    OtherKey("page_size=", Decimal(c.parPage));
    NoSortConcat(["page=" + Decimal(c.page)], ["page_size=" + Decimal(c.parPage)]);
    assert PageParams(c) == ["page=" + Decimal(c.page)] + ["page_size=" + Decimal(c.parPage)];
  }

  /** A parameter beginning with `sort=` is written exactly when the sort key
      is set and is not `relevance`. */
  lemma SortParameter(c: Criteres, q: Bytes)
    ensures (exists i :: 0 <= i < |Params(c, q)| && IsPrefix<Byte>("sort=", Params(c, q)[i])) <==> Sorted(c)
  {
    var front := Front(c, q) + PageParams(c);
    FrontHasNoSort(c, q);
    PageHasNoSort(c);
    NoSortConcat(Front(c, q), PageParams(c));
    assert Params(c, q) == front + SortParam(c);
    if Sorted(c) {
      assert IsPrefix<Byte>("sort=", Params(c, q)[|Params(c, q)| - 1]);
    }
  }

  /** The catalogue's sort spellings. */
  lemma SortExamples()
    ensures SortValue("created") == "-created" && SortValue("last_modified") == "-last_modified"
    ensures SortValue("downloads") == "-views" && SortValue("title") == "title"
  {
  }

  /** The default criteria give the bare paged query (the query text plays
      no part, since the default query is empty). */
  lemma DefaultUrl(q: Bytes)
    ensures UrlFor(DefaultCriteres, q) == "https://www.data.gouv.fr/api/1/datasets/?page=1&page_size=20"
  {
    DefaultQuery(q);
  }

  lemma DefaultQuery(q: Bytes)
    ensures Join(Params(DefaultCriteres, q)) == "page=1&page_size=20"
  {
    DefaultParams(q);
    JoinPair("page=1", "page_size=20");
    assert Join(Params(DefaultCriteres, q)) == "page=1" + "&" + "page_size=20";
    assert "page=1" + "&" + "page_size=20" == "page=1&page_size=20";
  }

  lemma JoinPair(a: Bytes, b: Bytes)
    ensures Join([a, b]) == a + "&" + b
  {
    assert [a, b][1..] == [b];
  }

  lemma DefaultParams(q: Bytes)
    ensures Params(DefaultCriteres, q) == ["page=1", "page_size=20"]
  {
    var c := DefaultCriteres;
    assert Front(c, q) == [] && SortParam(c) == [];
    assert c.page == 1 && c.parPage == 20;
    assert "page=" + Decimal(1) == "page=1";
    assert "page_size=" + Decimal(20) == "page_size=20";
  }
}
