/** The vocabulary of the search service (include/search/SearchService.hpp
    and the lookup tables of src/search/SearchService.cpp): themes, sources,
    territories and file formats, the resource record with its two
    predicates, the search criteria with their defaults, and the tables
    between formats, MIME types and theme tags. */
module Catalog {
  import opened Wrappers
  import opened Seqs
  import opened Bytes

  datatype Thematique =
    | ADMINISTRATION | ECONOMIE | TRANSPORTS | SANTE | ENVIRONNEMENT
    | EDUCATION | CULTURE | LOGEMENT | AGRICULTURE | ENERGIE
    | SECURITE | SOCIAL | TOURISME | NUMERIQUE | TOUTES

  datatype SourceType =
    | INSEE | MINISTERE | COLLECTIVITE_SPD | OPERATEUR_NATIONAL | ETABLISSEMENT_PUBLIC | TOUTES

  datatype Territoire = NATIONAL | REGIONAL | DEPARTEMENTAL | COMMUNAL | EPCI | TOUS

  datatype FormatFichier = CSV | JSON | GEOJSON | PARQUET | XML

  /** A downloadable file of a dataset. Time points are whole seconds. */
  datatype Ressource = Ressource(
    id: Bytes,
    titre: Bytes,
    description: Bytes,
    url: Bytes,
    format: FormatFichier,
    mimeType: Bytes,
    taille: int,
    derniereMaj: int,
    estPrincipale: bool,
    schema: Option<Bytes>,
    httpStatus: int)
  {
    /** `estValide`: the last check answered 200. */
    predicate EstValide() {
      httpStatus == 200
    }

    /** `estConforme`: the resource declares a schema. */
    predicate EstConforme() {
      schema.Some?
    }
  }

  /** `CriteresRecherche`. Time points are whole seconds. */
  datatype Criteres = Criteres(
    thematique: Thematique,
    requete: Bytes,
    tags: seq<Bytes>,
    source: SourceType,
    organisationId: Option<Bytes>,
    uniquementCertifiees: bool,
    granularite: Territoire,
    codeGeo: Option<Bytes>,
    formatsAcceptes: set<FormatFichier>,
    exclurePDF: bool,
    exclureImages: bool,
    uniquementRessourcePrincipale: bool,
    verifierDisponibilite: bool,
    schemaRequis: Option<Bytes>,
    miseAJourApres: Option<int>,
    ageMaxJours: Option<int>,
    page: int,
    parPage: int,
    tri: Bytes)

  /** The member initialisers of `CriteresRecherche`. */
  const DefaultCriteres := Criteres(
    Thematique.TOUTES, [], [], SourceType.TOUTES, None, false, TOUS, None, {CSV, JSON, GEOJSON},
    true, true, true, true, None, None, None, 1, 20, "relevance")

  /** The resource checks of the test suite. */
  lemma RessourcePredicates(r: Ressource)
    ensures r.(httpStatus := 200).EstValide()
    ensures !r.(httpStatus := 404).EstValide() && !r.(httpStatus := 500).EstValide()
    ensures r.(schema := Some("etalab/schema-test")).EstConforme()
    ensures !r.(schema := None).EstConforme()
  {
  }

  // ---------------------------------------------------------------------
  // Themes

  /** `thematiqueVersTag`. */
  function ThemeTag(t: Thematique): Bytes {
    match t
    case ADMINISTRATION => "administration"
    case ECONOMIE => "economie"
    case TRANSPORTS => "transports"
    case SANTE => "sante"
    case ENVIRONNEMENT => "environnement"
    case EDUCATION => "education"
    case CULTURE => "culture"
    case LOGEMENT => "logement"
    case AGRICULTURE => "agriculture"
    case ENERGIE => "energie"
    case SECURITE => "securite"
    case SOCIAL => "social"
    case TOURISME => "tourisme"
    case NUMERIQUE => "numerique"
    case TOUTES => ""
  }

  /** The tag lists of `getTagsThematique`. */
  const AdministrationTags: seq<Bytes> := ["administration", "service-public", "collectivite", "mairie", "demarche"]
  const EconomieTags: seq<Bytes> := ["economie", "entreprise", "emploi", "commerce", "industrie", "pib", "siret"]
  const TransportsTags: seq<Bytes> := ["transport", "mobilite", "deplacement", "circulation", "velo", "bus", "train", "metro"]
  const SanteTags: seq<Bytes> := ["sante", "hopital", "medecin", "medical", "soins", "etablissement-sante", "pharmacie"]
  const EnvironnementTags: seq<Bytes> := ["environnement", "ecologie", "climat", "biodiversite", "pollution", "nature", "dechets"]
  const EducationTags: seq<Bytes> := ["education", "enseignement", "scolaire", "ecole", "college", "lycee", "universite", "formation"]
  const CultureTags: seq<Bytes> := ["culture", "patrimoine", "musee", "bibliotheque", "theatre", "monument", "art"]
  const LogementTags: seq<Bytes> := ["logement", "habitat", "immobilier", "hlm", "construction", "urbanisme", "cadastre"]
  const AgricultureTags: seq<Bytes> := ["agriculture", "agricole", "exploitation", "elevage", "culture", "pac", "bio"]
  const EnergieTags: seq<Bytes> := ["energie", "electricite", "gaz", "renouvelable", "consommation", "production", "eolien", "solaire"]
  const SecuriteTags: seq<Bytes> := ["securite", "police", "gendarmerie", "delinquance", "accident", "pompier", "prevention"]
  const SocialTags: seq<Bytes> := ["social", "aide-sociale", "insertion", "solidarite", "handicap", "personnes-agees", "famille"]
  const TourismeTags: seq<Bytes> := ["tourisme", "hotel", "camping", "visiteur", "attraction", "sejour", "vacances"]
  const NumeriqueTags: seq<Bytes> := ["numerique", "digital", "internet", "fibre", "couverture", "open-data", "donnees"]

  /** `getTagsThematique`. */
  function ThemeTags(t: Thematique): seq<Bytes> {
    match t
    case ADMINISTRATION => AdministrationTags
    case ECONOMIE => EconomieTags
    case TRANSPORTS => TransportsTags
    case SANTE => SanteTags
    case ENVIRONNEMENT => EnvironnementTags
    case EDUCATION => EducationTags
    case CULTURE => CultureTags
    case LOGEMENT => LogementTags
    case AGRICULTURE => AgricultureTags
    case ENERGIE => EnergieTags
    case SECURITE => SecuriteTags
    case SOCIAL => SocialTags
    case TOURISME => TourismeTags
    case NUMERIQUE => NumeriqueTags
    case TOUTES => []
  }

  /** Only "all themes" has no tag, and only it has an empty tag list. */
  lemma ThemeTagEmpty(t: Thematique)
    ensures ThemeTag(t) == [] <==> t == Thematique.TOUTES
    ensures ThemeTags(t) == [] <==> t == Thematique.TOUTES
  {
  }

  /** Every tag list is free of duplicates. */
  lemma ThemeTagsDistinct(t: Thematique)
    ensures Distinct(ThemeTags(t))
  {
    match t
    case ADMINISTRATION => PublicTagsDistinct();
    case ECONOMIE => EconomicTagsDistinct();
    case TRANSPORTS => EconomicTagsDistinct();
    case SANTE => PublicTagsDistinct();
    case ENVIRONNEMENT => LivingTagsDistinct();
    case EDUCATION => PublicTagsDistinct();
    case CULTURE => LivingTagsDistinct();
    case LOGEMENT => LivingTagsDistinct();
    case AGRICULTURE => EconomicTagsDistinct();
    case ENERGIE => EconomicTagsDistinct();
    case SECURITE => PublicTagsDistinct();
    case SOCIAL => SocialTagsDistinct();
    case TOURISME => SocialTagsDistinct();
    case NUMERIQUE => SocialTagsDistinct();
    case TOUTES =>
  }

  lemma PublicTagsDistinct()
    ensures Distinct(AdministrationTags) && Distinct(SanteTags) && Distinct(EducationTags) && Distinct(SecuriteTags)
  {
  }

  lemma EconomicTagsDistinct()
    ensures Distinct(EconomieTags) && Distinct(TransportsTags) && Distinct(AgricultureTags) && Distinct(EnergieTags)
  {
  }

  lemma LivingTagsDistinct()
    ensures Distinct(EnvironnementTags) && Distinct(CultureTags) && Distinct(LogementTags)
  {
  }

  lemma SocialTagsDistinct()
    ensures Distinct(SocialTags) && Distinct(TourismeTags) && Distinct(NumeriqueTags)
  {
  }

  /** The tag of a theme is one of its tag list, except for "all themes"
      and for transports, whose tag is `transports` while its list holds
      `transport`. */
  lemma ThemeTagInTags(t: Thematique)
    ensures ThemeTag(t) in ThemeTags(t) <==> t != Thematique.TOUTES && t != TRANSPORTS
  {
    match t
    case ADMINISTRATION =>
    case ECONOMIE =>
    case TRANSPORTS =>
    case SANTE =>
    case ENVIRONNEMENT =>
    case EDUCATION =>
    case CULTURE =>
    case LOGEMENT =>
    case AGRICULTURE =>
    case ENERGIE =>
    case SECURITE =>
    case SOCIAL =>
    case TOURISME =>
    case NUMERIQUE =>
    case TOUTES =>
  }

  // ---------------------------------------------------------------------
  // Formats and MIME types

  /** `formatVersMimeType`. */
  function FormatToMime(f: FormatFichier): Bytes {
    match f
    case CSV => "text/csv"
    case JSON => "application/json"
    case GEOJSON => "application/geo+json"
    case PARQUET => "application/parquet"
    case XML => "application/xml"
  }

  /** `mimeTypeVersFormat`: lower-case the text, then test the markers in
      order csv/comma-separated, geo+json/geojson, json, parquet, xml. */
  function MimeToFormat(mimeType: Bytes): Option<FormatFichier> {
    var mime := Lower(mimeType);
    if Contains<Byte>(mime, "csv") || Contains<Byte>(mime, "comma-separated") then Some(CSV)
    else if Contains<Byte>(mime, "geo+json") || Contains<Byte>(mime, "geojson") then Some(GEOJSON)
    else if Contains<Byte>(mime, "json") then Some(JSON)
    else if Contains<Byte>(mime, "parquet") then Some(PARQUET)
    else if Contains<Byte>(mime, "xml") then Some(XML)
    else None
  }

  /** The markers a MIME text can carry. */
  predicate HasMarker(mime: Bytes) {
    Contains<Byte>(mime, "csv") || Contains<Byte>(mime, "comma-separated") || Contains<Byte>(mime, "geo+json")
    || Contains<Byte>(mime, "geojson") || Contains<Byte>(mime, "json") || Contains<Byte>(mime, "parquet")
    || Contains<Byte>(mime, "xml")
  }

  /** A format is recognised exactly when the lower-cased text carries one
      of the markers; case never matters. */
  lemma MimeToFormatRecognises(m: Bytes, n: Bytes)
    ensures MimeToFormat(m).Some? <==> HasMarker(Lower(m))
    ensures Lower(m) == Lower(n) ==> MimeToFormat(m) == MimeToFormat(n)
    ensures MimeToFormat(Lower(m)) == MimeToFormat(m)
  {
    LowerIdempotent(m);
  }

  /** Text without capitals is its own lower-case form. */
  lemma LowerOfLowerCase(s: Bytes)
    requires forall i :: 0 <= i < |s| ==> !IsUpper(s[i])
    ensures Lower(s) == s
  {
  }

  /** The seven markers, in the order of the tests, and the format each
      one selects. */
  const Markers: seq<Bytes> := ["csv", "comma-separated", "geo+json", "geojson", "json", "parquet", "xml"]
  const MarkerFormats: seq<FormatFichier> := [CSV, CSV, GEOJSON, GEOJSON, JSON, PARQUET, XML]

  /** The first marker found decides: when the lower-cased text contains
      marker `j` and none of the markers before it, the text reads as
      marker `j`'s format. */
  lemma FirstMarker(mimeType: Bytes, j: nat)
    requires j < |Markers|
    requires forall i :: 0 <= i < j ==> !Contains(Lower(mimeType), Markers[i])
    requires Contains(Lower(mimeType), Markers[j])
    ensures MimeToFormat(mimeType) == Some(MarkerFormats[j])
  {
    MarkersSpelled();
  }

  lemma MarkersSpelled()
    ensures Markers[0] == "csv" && Markers[1] == "comma-separated" && Markers[2] == "geo+json"
    ensures Markers[3] == "geojson" && Markers[4] == "json" && Markers[5] == "parquet" && Markers[6] == "xml"
  {
  }

  /** A text that lacks one byte of each of the first `|missing|` markers
      contains none of them. */
  lemma LacksMarkers(mime: Bytes, missing: seq<nat>)
    requires |missing| <= |Markers|
    requires forall i :: 0 <= i < |missing| ==> missing[i] < |Markers[i]| && Markers[i][missing[i]] !in mime
    ensures forall i :: 0 <= i < |missing| ==> !Contains(mime, Markers[i])
  {
    forall i | 0 <= i < |missing| ensures !Contains(mime, Markers[i]) {
      MissingElement(mime, Markers[i], missing[i]);
    }
  }

  /** A lower-case text, the marker `j` at `at` and a missing byte for each
      earlier marker: the example texts below are read through this. */
  lemma ReadsAs(mime: Bytes, j: nat, missing: seq<nat>, at: nat)
    requires forall i :: 0 <= i < |mime| ==> !IsUpper(mime[i])
    requires j < |Markers| && |missing| == j
    requires forall i :: 0 <= i < j ==> missing[i] < |Markers[i]| && Markers[i][missing[i]] !in mime
    requires OccursAt(mime, Markers[j], at)
    ensures MimeToFormat(mime) == Some(MarkerFormats[j])
  {
    LowerOfLowerCase(mime);
    LacksMarkers(mime, missing);
    FirstMarker(mime, j);
  }

  /** Every format's own MIME type reads back as that format; the geo+json
      text also contains `json` and is caught first by the GeoJSON test. */
  lemma MimeRoundTrip(f: FormatFichier)
    ensures MimeToFormat(FormatToMime(f)) == Some(f)
  {
    match f
    case CSV => CsvRoundTrip();
    case JSON => JsonRoundTrip();
    case GEOJSON => GeoJsonRoundTrip();
    case PARQUET => ParquetRoundTrip();
    case XML => XmlRoundTrip();
  }

  lemma CsvRoundTrip()
    ensures MimeToFormat("text/csv") == Some(CSV)
  {
    assert "text/csv"[5..8] == Markers[0];
    ReadsAs("text/csv", 0, [], 5);
  }

  lemma JsonRoundTrip()
    ensures MimeToFormat("application/json") == Some(JSON)
  {
    assert "application/json"[12..16] == Markers[4];
    ReadsAs("application/json", 4, [2, 5, 0, 0], 12);
  }

  lemma GeoJsonRoundTrip()
    ensures MimeToFormat("application/geo+json") == Some(GEOJSON)
  {
    assert "application/geo+json"[12..20] == Markers[2];
    ReadsAs("application/geo+json", 2, [2, 5], 12);
  }

  lemma ParquetRoundTrip()
    ensures MimeToFormat("application/parquet") == Some(PARQUET)
  {
    assert "application/parquet"[12..19] == Markers[5];
    ReadsAs("application/parquet", 5, [2, 5, 0, 0, 0], 12);
  }

  lemma XmlRoundTrip()
    ensures MimeToFormat("application/xml") == Some(XML)
  {
    assert "application/xml"[12..15] == Markers[6];
    ReadsAs("application/xml", 6, [2, 5, 0, 0, 0, 2], 12);
  }

  /** The test suite's MIME texts in capitals read as their lower-case forms. */
  lemma MimeCaseExamples()
    ensures MimeToFormat("TEXT/CSV") == Some(CSV)
    ensures MimeToFormat("Application/JSON") == Some(JSON)
  {
    UpperCsv();
    UpperJson();
  }

  lemma UpperCsv()
    ensures MimeToFormat("TEXT/CSV") == Some(CSV)
  {
    assert Lower("TEXT/CSV") == "text/csv";
    CsvRoundTrip();
    MimeToFormatRecognises("TEXT/CSV", "text/csv");
  }

  lemma UpperJson()
    ensures MimeToFormat("Application/JSON") == Some(JSON)
  {
    assert Lower("Application/JSON") == "application/json";
    JsonRoundTrip();
    MimeToFormatRecognises("Application/JSON", "application/json");
  }

  /** A GeoJSON spelling without the plus sign. */
  lemma GeoJsonVariant()
    ensures MimeToFormat("application/geojson") == Some(GEOJSON)
  {
    assert "application/geojson"[12..19] == Markers[3];
    ReadsAs("application/geojson", 3, [2, 5, 3], 12);
  }

  /** Texts that carry every byte of an earlier marker but not the marker
      itself: the long CSV name and a vendor GeoJSON type. */
  lemma LongNameExamples()
    ensures MimeToFormat("text/comma-separated-values") == Some(CSV)
    ensures MimeToFormat("application/vnd.geo+json") == Some(GEOJSON)
  {
    CommaSeparatedValues();
    VendorGeoJson();
  }

  const LongCsvName: Bytes := "text/comma-separated-values"
  const VendorGeoJsonName: Bytes := "application/vnd.geo+json"

  lemma CommaSeparatedValues()
    ensures MimeToFormat("text/comma-separated-values") == Some(CSV)
  {
    LowerOfLowerCase(LongCsvName);
    LongCsvMarkers();
    FirstMarker(LongCsvName, 1);
  }

  lemma LongCsvMarkers()
    ensures !Contains(LongCsvName, Markers[0])
    ensures OccursAt(LongCsvName, Markers[1], 5)
  {
    LongCsvLacksCsv();
    var a: Bytes, b: Bytes, c: Bytes := "text/", "comma-separated", "-values";
    assert LongCsvName == a + b + c;
    assert LongCsvName[5..20] == b;
    MarkersSpelled();
  }

  lemma LongCsvLacksCsv()
    ensures !Contains(LongCsvName, Markers[0])
  {
    LongCsvPieces();
    LongCsvSplit();
    assert Markers[0] == "csv";
  }

  lemma LongCsvSplit()
    ensures LongCsvName == "text/c" + "om" + "ma-separated-values"
  {
  }

  /** The only `c` before the values is followed by `o`, so no `csv`. */
  lemma LongCsvPieces()
    ensures !Contains<Byte>("text/c" + "om" + "ma-separated-values", "csv")
  {
    var x: Bytes, y: Bytes, z: Bytes := "text/c", "om", "ma-separated-values";
    var t: Bytes := "csv";
    assert 'v' !in x + y && 'c' !in y + z;
    MissingAcross(x, y, z, t, 2, 0);
  }

  lemma VendorGeoJson()
    ensures MimeToFormat("application/vnd.geo+json") == Some(GEOJSON)
  {
    LowerOfLowerCase(VendorGeoJsonName);
    VendorGeoJsonMarkers();
    FirstMarker(VendorGeoJsonName, 2);
  }

  lemma VendorGeoJsonMarkers()
    ensures !Contains(VendorGeoJsonName, Markers[0]) && !Contains(VendorGeoJsonName, Markers[1])
    ensures OccursAt(VendorGeoJsonName, Markers[2], 16)
  {
    VendorGeoJsonLacksCsv();
    MissingElement(VendorGeoJsonName, Markers[1], 2);
    var a: Bytes, b: Bytes := "application/vnd.", "geo+json";
    assert VendorGeoJsonName == a + b;
    assert VendorGeoJsonName[16..24] == b;
    MarkersSpelled();
  }

  lemma VendorGeoJsonLacksCsv()
    ensures !Contains(VendorGeoJsonName, Markers[0])
  {
    VendorGeoJsonPieces();
    VendorGeoJsonSplit();
    assert Markers[0] == "csv";
  }

  lemma VendorGeoJsonSplit()
    ensures VendorGeoJsonName == "applic" + "at" + "ion/vnd.geo+json"
  {
  }

  /** The only `c` is followed by `a`, so no `csv`. */
  lemma VendorGeoJsonPieces()
    ensures !Contains<Byte>("applic" + "at" + "ion/vnd.geo+json", "csv")
  {
    var x: Bytes, y: Bytes, z: Bytes := "applic", "at", "ion/vnd.geo+json";
    var t: Bytes := "csv";
    assert 's' !in x + y && 'c' !in y + z;
    MissingAcross(x, y, z, t, 1, 0);
  }

  /** PDF and PNG are not recognised formats. */
  lemma UnknownMimeExamples()
    ensures MimeToFormat("application/pdf") == None
    ensures MimeToFormat("image/png") == None
  {
    PdfUnknown();
    PngUnknown();
  }

  lemma PdfUnknown()
    ensures MimeToFormat("application/pdf") == None
  {
    Unrecognised("application/pdf", [2, 2, 0, 0, 0, 2, 0]);
  }

  lemma PngUnknown()
    ensures MimeToFormat("image/png") == None
  {
    Unrecognised("image/png", [0, 0, 4, 3, 0, 2, 0]);
  }

  /** A lower-case text lacking one byte of every marker carries none. */
  lemma Unrecognised(mime: Bytes, missing: seq<nat>)
    requires forall i :: 0 <= i < |mime| ==> !IsUpper(mime[i])
    requires |missing| == |Markers|
    requires forall i :: 0 <= i < |Markers| ==> missing[i] < |Markers[i]| && Markers[i][missing[i]] !in mime
    ensures MimeToFormat(mime) == None
  {
    LowerOfLowerCase(mime);
    LacksMarkers(mime, missing);
    MarkersSpelled();
    MimeToFormatRecognises(mime, mime);
  }
}
