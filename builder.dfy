/** `CriteresBuilder` (include/search/SearchService.hpp): a builder object
    holding one `CriteresRecherche` that each setter updates in place and
    `build` copies out. Every setter changes only its own field. */
module Builder {
  import opened Wrappers
  import opened Bytes
  import opened Catalog

  class CriteresBuilder {
    var criteres: Criteres

    /** A fresh builder holds the documented defaults. */
    constructor ()
      ensures criteres == DefaultCriteres
      ensures criteres.thematique == Catalog.Thematique.TOUTES && criteres.requete == []
      ensures criteres.source == SourceType.TOUTES && criteres.granularite == TOUS
      ensures criteres.exclurePDF && criteres.page == 1 && criteres.parPage == 20
      ensures criteres.formatsAcceptes == {CSV, JSON, GEOJSON}
    {
      criteres := DefaultCriteres;
    }

    method Thematique(t: Catalog.Thematique)
      modifies this
      ensures criteres == old(criteres).(thematique := t)
    {
      criteres := criteres.(thematique := t);
    }

    method Requete(q: Bytes)
      modifies this
      ensures criteres == old(criteres).(requete := q)
    {
      criteres := criteres.(requete := q);
    }

    /** `tag`: appended after the tags already given. */
    method Tag(t: Bytes)
      modifies this
      ensures criteres == old(criteres).(tags := old(criteres).tags + [t])
      ensures |criteres.tags| == |old(criteres).tags| + 1 && criteres.tags[|criteres.tags| - 1] == t
      ensures criteres.tags[..|old(criteres).tags|] == old(criteres).tags
    {
      criteres := criteres.(tags := criteres.tags + [t]);
    }

    method Source(s: SourceType)
      modifies this
      ensures criteres == old(criteres).(source := s)
    {
      criteres := criteres.(source := s);
    }

    method Organisation(orgId: Bytes)
      modifies this
      ensures criteres == old(criteres).(organisationId := Some(orgId))
    {
      criteres := criteres.(organisationId := Some(orgId));
    }

    method CertifieesUniquement(b: bool := true)
      modifies this
      ensures criteres == old(criteres).(uniquementCertifiees := b)
    {
      criteres := criteres.(uniquementCertifiees := b);
    }

    method Territoire(t: Catalog.Territoire)
      modifies this
      ensures criteres == old(criteres).(granularite := t)
    {
      criteres := criteres.(granularite := t);
    }

    method CodeGeo(code: Bytes)
      modifies this
      ensures criteres == old(criteres).(codeGeo := Some(code))
    {
      criteres := criteres.(codeGeo := Some(code));
    }

    /** `format`: one more accepted format, none removed. */
    method Format(f: FormatFichier)
      modifies this
      ensures criteres == old(criteres).(formatsAcceptes := old(criteres).formatsAcceptes + {f})
      ensures old(criteres).formatsAcceptes <= criteres.formatsAcceptes && f in criteres.formatsAcceptes
    {
      criteres := criteres.(formatsAcceptes := criteres.formatsAcceptes + {f});
    }

    /** `formatsStricts`: clear the set, then insert the listed formats one
        by one. */
    method FormatsStricts(formats: seq<FormatFichier>)
      modifies this
      ensures criteres == old(criteres).(formatsAcceptes := set f | f in formats)
    {
      criteres := criteres.(formatsAcceptes := {});
      for i := 0 to |formats|
        invariant criteres == old(criteres).(formatsAcceptes := set f | f in formats[..i])
      {
        criteres := criteres.(formatsAcceptes := criteres.formatsAcceptes + {formats[i]});
        assert formats[..i + 1] == formats[..i] + [formats[i]];
      }
      assert formats[..|formats|] == formats;
    }

    method Schema(s: Bytes)
      modifies this
      ensures criteres == old(criteres).(schemaRequis := Some(s))
    {
      criteres := criteres.(schemaRequis := Some(s));
    }

    method MiseAJourDepuis(jours: int)
      modifies this
      ensures criteres == old(criteres).(ageMaxJours := Some(jours))
    {
      criteres := criteres.(ageMaxJours := Some(jours));
    }

    method RessourcePrincipaleUniquement(b: bool := true)
      modifies this
      ensures criteres == old(criteres).(uniquementRessourcePrincipale := b)
    {
      criteres := criteres.(uniquementRessourcePrincipale := b);
    }

    method VerifierDisponibilite(b: bool := true)
      modifies this
      ensures criteres == old(criteres).(verifierDisponibilite := b)
    {
      criteres := criteres.(verifierDisponibilite := b);
    }

    method Page(p: int)
      modifies this
      ensures criteres == old(criteres).(page := p)
    {
      criteres := criteres.(page := p);
    }

    method ParPage(pp: int)
      modifies this
      ensures criteres == old(criteres).(parPage := pp)
    {
      criteres := criteres.(parPage := pp);
    }

    method Tri(t: Bytes)
      modifies this
      ensures criteres == old(criteres).(tri := t)
    {
      criteres := criteres.(tri := t);
    }

    /** `build`: a copy of the criteria, the builder unchanged. */
    method Build() returns (c: Criteres)
      ensures c == criteres
    {
      c := criteres;
    }
  }

  /** The default criteria of the test suite. */
  method DefaultsExample() returns (c: Criteres)
    ensures c.thematique == Thematique.TOUTES && c.requete == [] && c.source == SourceType.TOUTES
    ensures c.granularite == TOUS && c.exclurePDF && c.page == 1 && c.parPage == 20
    ensures c.formatsAcceptes == {CSV, JSON, GEOJSON} && c.tri == "relevance"
  {
    var b := new CriteresBuilder();
    c := b.Build();
  }

  /** Two tags keep the order they were given in. */
  method TagsExample() returns (c: Criteres)
    ensures c.tags == ["pharmacie", "officine"]
  {
    var b := new CriteresBuilder();
    b.Tag("pharmacie");
    b.Tag("officine");
    c := b.Build();
  }

  /** Strict formats replace the defaults rather than adding to them. */
  method StrictFormatsExample() returns (c: Criteres)
    ensures c.formatsAcceptes == {CSV, JSON}
    ensures |c.formatsAcceptes| == 2 && GEOJSON !in c.formatsAcceptes
  {
    var b := new CriteresBuilder();
    b.FormatsStricts([CSV, JSON]);
    c := b.Build();
    assert c.formatsAcceptes == {CSV, JSON};
  }

  /** A chain of setters: each one leaves the others' fields as they were
      set, and the fields no setter names keep their defaults. */
  method ChainExample() returns (c: Criteres)
    ensures c.thematique == SANTE && c.requete == "pharmacies" && c.tags == ["officine"]
    ensures c.uniquementCertifiees && c.granularite == REGIONAL
    ensures c.formatsAcceptes == {CSV} && c.ageMaxJours == Some(365)
    ensures c.page == 2 && c.parPage == 50
    ensures c.source == SourceType.TOUTES && c.exclurePDF && c.tri == "relevance"
  {
    var b := new CriteresBuilder();
    b.Thematique(SANTE);
    b.Requete("pharmacies");
    b.Tag("officine");
    b.CertifieesUniquement();
    b.Territoire(REGIONAL);
    b.FormatsStricts([CSV]);
    b.MiseAJourDepuis(365);
    b.Page(2);
    b.ParPage(50);
    c := b.Build();
  }
}
