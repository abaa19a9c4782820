/** Resource filtering of the search service (`ressourceAcceptee` and
    `filtrerRessources` in src/search/SearchService.cpp). The clock reading
    of the age check is the parameter `now`, and the availability probe
    (`httpHead`) is the parameter `head`; time points are whole seconds. */
module Acceptance {
  import opened Wrappers
  import opened Seqs
  import opened Bytes
  import opened Catalog

  /** C++ integer division of a value by a positive divisor: the quotient is
      truncated toward zero. */
  function TruncDiv(a: int, b: int): (q: int)
    requires b > 0
    ensures a >= 0 ==> q == a / b
    ensures a < 0 ==> q == -((-a) / b)
  {
    if a >= 0 then a / b else -((-a) / b)
  }

  /** The age in days the code computes: whole hours since the last update,
      then whole days, each truncated toward zero. */
  function AgeInDays(now: int, derniereMaj: int): int {
    TruncDiv(TruncDiv(now - derniereMaj, 3600), 24)
  }

  /** The image markers of the exclusion test. */
  predicate LooksLikeImage(mime: Bytes) {
    Contains(mime, "image") || Contains(mime, "png") || Contains(mime, "jpg")
    || Contains(mime, "jpeg") || Contains(mime, "gif")
  }

  /** `ressourceAcceptee`, test by test in the order of the code. */
  function Acceptee(r: Ressource, c: Criteres, now: int): bool {
    var formatOk :=
      match MimeToFormat(r.mimeType)
      case Some(f) => f in c.formatsAcceptes
      case None =>
        var mime := Lower(r.mimeType);
        !(c.exclurePDF && Contains(mime, "pdf")) && !(c.exclureImages && LooksLikeImage(mime));
    formatOk
    && !(c.uniquementRessourcePrincipale && !r.estPrincipale)
    && (c.schemaRequis.Some? ==> r.schema.Some? && Contains(r.schema.value, c.schemaRequis.value))
    && (c.ageMaxJours.Some? ==> AgeInDays(now, r.derniereMaj) <= c.ageMaxJours.value)
    && (c.miseAJourApres.Some? ==> r.derniereMaj >= c.miseAJourApres.value)
  }

  /** The four rejections: a recognised format outside the accepted set; a
      PDF or image MIME type under the exclusion flags, which only applies to
      unrecognised types; a secondary resource when only main ones are
      wanted; a required schema that is absent or not contained in the
      resource's schema. */
  lemma Rejections(r: Ressource, c: Criteres, now: int)
    ensures MimeToFormat(r.mimeType).Some? && MimeToFormat(r.mimeType).value !in c.formatsAcceptes
            ==> !Acceptee(r, c, now)
    ensures MimeToFormat(r.mimeType).None? && c.exclurePDF && Contains(Lower(r.mimeType), "pdf")
            ==> !Acceptee(r, c, now)
    ensures MimeToFormat(r.mimeType).None? && c.exclureImages && LooksLikeImage(Lower(r.mimeType))
            ==> !Acceptee(r, c, now)
    ensures c.uniquementRessourcePrincipale && !r.estPrincipale ==> !Acceptee(r, c, now)
    ensures c.schemaRequis.Some? && (r.schema.None? || !Contains(r.schema.value, c.schemaRequis.value))
            ==> !Acceptee(r, c, now)
  {
  }

  /** For a recognised format the PDF and image flags play no part. */
  lemma RecognisedIgnoresExclusions(r: Ressource, c: Criteres, now: int)
    requires MimeToFormat(r.mimeType).Some?
    ensures Acceptee(r, c, now) == Acceptee(r, c.(exclurePDF := false, exclureImages := false), now)
  {
  }

  /** Accepting more formats never rejects a resource that was accepted. */
  lemma MoreFormatsAcceptMore(r: Ressource, c: Criteres, now: int, more: set<FormatFichier>)
    requires c.formatsAcceptes <= more
    ensures Acceptee(r, c, now) ==> Acceptee(r, c.(formatsAcceptes := more), now)
  {
  }

  /** Without any of the optional tests, an accepted resource is one whose
      format test passes and which is main or need not be. */
  lemma AcceptedWithoutOptions(r: Ressource, c: Criteres, now: int)
    requires c.schemaRequis.None? && c.ageMaxJours.None? && c.miseAJourApres.None?
    requires MimeToFormat(r.mimeType).Some?
    ensures Acceptee(r, c, now) <==>
              MimeToFormat(r.mimeType).value in c.formatsAcceptes && (r.estPrincipale || !c.uniquementRessourcePrincipale)
  {
  }

  /** The age check truncates: 47 hours and 59 minutes is one day, and a
      resource dated in the future has a negative age rounded toward zero. */
  lemma AgeExamples()
    ensures AgeInDays(2 * 86400 - 60, 0) == 1
    ensures AgeInDays(0, 3599) == 0
    ensures AgeInDays(0, 90000) == -1
  {
  }

  // ---------------------------------------------------------------------
  // Filtering a list of resources

  /** What the availability probe answers. */
  datatype Verification = Verification(disponible: bool, httpStatus: int, mimeTypeReel: Option<Bytes>)

  /** What happens to one accepted resource: `None` when the probe reports
      it unavailable, otherwise the resource with the probed status and, if
      the probe saw one, the probed MIME type. */
  function Probed(r: Ressource, c: Criteres, head: Bytes -> Verification): Option<Ressource> {
    if c.verifierDisponibilite && r.url != [] then
      var v := head(r.url);
      if !v.disponible then None
      else Some(r.(httpStatus := v.httpStatus, mimeType := if v.mimeTypeReel.Some? then v.mimeTypeReel.value else r.mimeType))
    else Some(r)
  }

  /** The reference reading of `filtrerRessources`, resource by resource. */
  function KeptResources(rs: seq<Ressource>, c: Criteres, now: int, head: Bytes -> Verification): seq<Ressource> {
    if rs == [] then []
    else
      var r := rs[|rs| - 1];
      var kept := KeptResources(rs[..|rs| - 1], c, now, head);
      if Acceptee(r, c, now) && Probed(r, c, head).Some? then kept + [Probed(r, c, head).value] else kept
  }

  /** `filtrerRessources`. */
  method FiltrerRessources(ressources: seq<Ressource>, c: Criteres, now: int, head: Bytes -> Verification)
    returns (resultat: seq<Ressource>)
    ensures resultat == KeptResources(ressources, c, now, head)
  {
    resultat := [];
    for i := 0 to |ressources|
      invariant resultat == KeptResources(ressources[..i], c, now, head)
    {
      var res := ressources[i];
      assert ressources[..i + 1][..i] == ressources[..i];
      if Acceptee(res, c, now) {
        var filteredRes := res;
        if c.verifierDisponibilite && res.url != [] {
          var verif := head(res.url);
          filteredRes := filteredRes.(httpStatus := verif.httpStatus);
          if !verif.disponible {
            continue;
          }
          if verif.mimeTypeReel.Some? {
            filteredRes := filteredRes.(mimeType := verif.mimeTypeReel.value);
          }
        }
        resultat := resultat + [filteredRes];
      }
    }
    assert ressources[..|ressources|] == ressources;
  }

  /** The accepted resources, in input order. */
  function AcceptedInOrder(rs: seq<Ressource>, c: Criteres, now: int): (out: seq<Ressource>)
    ensures |out| <= |rs|
    ensures forall r :: r in out ==> r in rs && Acceptee(r, c, now)
  {
    if rs == [] then []
    else (if Acceptee(rs[0], c, now) then [rs[0]] else []) + AcceptedInOrder(rs[1..], c, now)
  }

  lemma {:induction false} AcceptedInOrderSnoc(rs: seq<Ressource>, r: Ressource, c: Criteres, now: int)
    ensures AcceptedInOrder(rs + [r], c, now)
            == AcceptedInOrder(rs, c, now) + (if Acceptee(r, c, now) then [r] else [])
  {
    if rs == [] {
      assert [r][1..] == [];
    } else {
      assert (rs + [r])[1..] == rs[1..] + [r];
      AcceptedInOrderSnoc(rs[1..], r, c, now);
    }
  }

  /** With the availability check off, the result is exactly the accepted
      resources, unchanged and in input order, whatever the probe would
      answer. */
  lemma {:induction false} UncheckedKeepsAcceptedInOrder(rs: seq<Ressource>, c: Criteres, now: int, head: Bytes -> Verification)
    requires !c.verifierDisponibilite
    ensures KeptResources(rs, c, now, head) == AcceptedInOrder(rs, c, now)
  {
    if rs != [] {
      var init, r := rs[..|rs| - 1], rs[|rs| - 1];
      var keep := if Acceptee(r, c, now) then [r] else [];
      assert init + [r] == rs;
      calc {
        KeptResources(rs, c, now, head);
      == { UncheckedSnoc(rs, c, now, head); }
        KeptResources(init, c, now, head) + keep;
      == { UncheckedKeepsAcceptedInOrder(init, c, now, head); }
        AcceptedInOrder(init, c, now) + keep;
      == { AcceptedInOrderSnoc(init, r, c, now); }
        AcceptedInOrder(rs, c, now);
      }
    }
  }

  lemma UncheckedSnoc(rs: seq<Ressource>, c: Criteres, now: int, head: Bytes -> Verification)
    requires !c.verifierDisponibilite && rs != []
    ensures var r := rs[|rs| - 1];
            KeptResources(rs, c, now, head)
            == KeptResources(rs[..|rs| - 1], c, now, head) + (if Acceptee(r, c, now) then [r] else [])
  {
    assert Probed(rs[|rs| - 1], c, head) == Some(rs[|rs| - 1]);
  }

  /** With the check on, every kept resource is an accepted input whose
      status and MIME type may have been replaced, and nothing else. */
  lemma {:induction false} CheckedKeepsAcceptedInputs(rs: seq<Ressource>, c: Criteres, now: int, head: Bytes -> Verification)
    ensures |KeptResources(rs, c, now, head)| <= |rs|
    ensures forall k :: k in KeptResources(rs, c, now, head) ==>
              exists r :: r in rs && Acceptee(r, c, now) && k.(httpStatus := r.httpStatus, mimeType := r.mimeType) == r
  {
    if rs != [] {
      var init := rs[..|rs| - 1];
      var r := rs[|rs| - 1];
      CheckedKeepsAcceptedInputs(init, c, now, head);
      forall k | k in KeptResources(rs, c, now, head)
        ensures exists x :: x in rs && Acceptee(x, c, now) && k.(httpStatus := x.httpStatus, mimeType := x.mimeType) == x
      {
        if k in KeptResources(init, c, now, head) {
          var x :| x in init && Acceptee(x, c, now) && k.(httpStatus := x.httpStatus, mimeType := x.mimeType) == x;
          assert x in rs;
        } else {
          assert k == Probed(r, c, head).value;
          assert r in rs;
        }
      }
    }
  }

  /** The default criteria drop a PDF and keep a main CSV file. */
  lemma DefaultExamples(r: Ressource, now: int)
    ensures !Acceptee(r.(mimeType := "application/pdf"), DefaultCriteres, now)
    ensures Acceptee(r.(mimeType := "text/csv", estPrincipale := true), DefaultCriteres, now)
  {
    UnknownMimeExamples();
    CsvRoundTrip();
    assert Lower("application/pdf") == "application/pdf";
    assert OccursAt(Lower("application/pdf"), "pdf", 12);
  }
}
