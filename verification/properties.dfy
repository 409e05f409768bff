/** What the list operations of `Objectifs` promise when they are looked at together:
    toggles undo themselves, a delete or toggle of an absent id changes nothing, the
    status filters split the list, the search is a substring test, and the statistics
    agree with the views and follow each operation. */
module ObjectifsProperties {
  import opened Lists
  import opened Text
  import opened Objectifs

  // ---------------------------------------------------------------------------
  // Toggles

  /** Toggling completion twice with the same id gives back the list. */
  lemma ToggleCompleteTwice(objectifs: seq<Objectif>, id: int)
    ensures ToggleComplete(ToggleComplete(objectifs, id), id) == objectifs
  {
  }

  /** Toggling completion for an id no entry carries changes nothing. */
  lemma ToggleCompleteAbsent(objectifs: seq<Objectif>, id: int)
    requires forall o :: o in objectifs ==> o.id != id
    ensures ToggleComplete(objectifs, id) == objectifs
  {
  }

  /** Toggling priority twice with the same id gives back the list. */
  lemma TogglePrioriteTwice(objectifs: seq<Objectif>, id: int)
    ensures TogglePriorite(TogglePriorite(objectifs, id), id) == objectifs
  {
  }

  /** Toggling priority for an id no entry carries changes nothing. */
  lemma TogglePrioriteAbsent(objectifs: seq<Objectif>, id: int)
    requires forall o :: o in objectifs ==> o.id != id
    ensures TogglePriorite(objectifs, id) == objectifs
  {
  }

  // ---------------------------------------------------------------------------
  // Delete

  /** Deleting an id no entry carries changes nothing; deleting one that is present
      makes the list shorter. */
  lemma SupprimerAbsent(objectifs: seq<Objectif>, id: int)
    ensures (forall o :: o in objectifs ==> o.id != id) <==> SupprimerObjectif(objectifs, id) == objectifs
  {
    if forall o :: o in objectifs ==> o.id != id {
      FilterAllPass(objectifs, HasOtherId(id));
    } else {
      var o :| o in objectifs && o.id == id;
      assert o !in SupprimerObjectif(objectifs, id);
    }
  }

  /** After a delete, the entry with the id can be neither toggled nor deleted again:
      both operations leave the result as it is. */
  lemma SupprimerThenAbsent(objectifs: seq<Objectif>, id: int)
    ensures SupprimerObjectif(SupprimerObjectif(objectifs, id), id) == SupprimerObjectif(objectifs, id)
    ensures ToggleComplete(SupprimerObjectif(objectifs, id), id) == SupprimerObjectif(objectifs, id)
  {
    var r := SupprimerObjectif(objectifs, id);
    SupprimerAbsent(r, id);
    ToggleCompleteAbsent(r, id);
  }

  // ---------------------------------------------------------------------------
  // The filtered view

  /** `actifs` and `completes` split the list: no entry is in both views and their
      lengths add up to the length of the list; `tous` keeps the whole list. */
  lemma StatusPartition(objectifs: seq<Objectif>)
    ensures |StatusView(objectifs, Actifs)| + |StatusView(objectifs, Completes)| == |objectifs|
    ensures forall o :: !(o in StatusView(objectifs, Actifs) && o in StatusView(objectifs, Completes))
    ensures StatusView(objectifs, Tous) == objectifs
  {
    FilterComplementLengths(objectifs, StatusTest(Actifs), StatusTest(Completes));
    FilterAllPass(objectifs, StatusTest(Tous));
  }

  /** An entry passes the search exactly when the lower-cased query occurs at some
      position of the lower-cased title or of the lower-cased description. */
  lemma SearchIffSubstring(o: Objectif, recherche: string)
    ensures MatchesSearch(o, recherche) <==>
      (exists i :: OccursAt(Lower(o.titre), Lower(recherche), i))
      || (exists i :: OccursAt(Lower(o.description), Lower(recherche), i))
  {
    IncludesIffOccurs(Lower(o.titre), Lower(recherche));
    IncludesIffOccurs(Lower(o.description), Lower(recherche));
  }

  /** The search ignores case: changing the case of ASCII letters in the query, the
      title or the description does not change whether an entry matches, and a query
      matches exactly when its lower-cased form does. */
  lemma SearchIgnoresCase(o: Objectif, p: Objectif, recherche: string, autre: string)
    requires SameUpToAsciiCase(o.titre, p.titre) && SameUpToAsciiCase(o.description, p.description)
    requires SameUpToAsciiCase(recherche, autre)
    ensures MatchesSearch(o, recherche) <==> MatchesSearch(p, autre)
    ensures MatchesSearch(o, recherche) <==> MatchesSearch(o, Lower(recherche))
  {
    LowerIgnoresCase(o.titre, p.titre);
    LowerIgnoresCase(o.description, p.description);
    LowerIgnoresCase(recherche, autre);
    LowerProperties(recherche);
  }

  /** An empty search keeps every entry the status filter keeps; with `tous` the view
      is then the whole list. */
  lemma EmptySearchKeepsAll(objectifs: seq<Objectif>, filtre: Filtre)
    ensures ObjectifsFiltres(objectifs, filtre, "") == StatusView(objectifs, filtre)
    ensures ObjectifsFiltres(objectifs, Tous, "") == objectifs
  {
    forall f: Filtre ensures ObjectifsFiltres(objectifs, f, "") == StatusView(objectifs, f) {
      var v := StatusView(objectifs, f);
      forall o | o in v ensures SearchTest("")(o) {
        assert Lower("") == "";
      }
      FilterAllPass(v, SearchTest(""));
    }
    StatusPartition(objectifs);
  }

  /** The query "map" finds an objective titled "Mapping trip" and one described
      "see map". */
  lemma SearchExampleFound(id: int, date: string, categorie: string)
    ensures MatchesSearch(Objectif(id, "Mapping trip", "", date, false, false, categorie), "map")
    ensures MatchesSearch(Objectif(id, "Trip", "see map", date, false, false, categorie), "map")
  {
    var query := Lower("map");
    assert query == "map";
    var titre := Lower("Mapping trip");
    assert titre[0..3] == "map";
    assert OccursAt(titre, query, 0);
    IncludesIffOccurs(titre, query);
    var description := Lower("see map");
    assert description[4..7] == "map";
    assert OccursAt(description, query, 4);
    IncludesIffOccurs(description, query);
  }

  /** The query "map" does not find an objective titled "Code review" with an empty
      description. */
  lemma SearchExampleMissed(id: int, date: string, categorie: string)
    ensures !MatchesSearch(Objectif(id, "Code review", "", date, false, false, categorie), "map")
  {
    var query := Lower("map");
    assert query == "map";
    var titre := Lower("Code review");
    assert forall k :: 0 <= k < |titre| ==> titre[k] != 'm';
    forall i ensures !OccursAt(titre, query, i) {
      if 0 <= i && i + 3 <= |titre| {
        assert titre[i..i + 3][0] == titre[i];
      }
    }
    IncludesIffOccurs(titre, query);
    IncludesIffOccurs(Lower(""), query);
  }

  // ---------------------------------------------------------------------------
  // Statistics

  /** The figures of the panel are the lengths of the three status views. */
  lemma StatsMatchViews(objectifs: seq<Objectif>)
    ensures Statistiques(objectifs).total == |ObjectifsFiltres(objectifs, Tous, "")|
    ensures Statistiques(objectifs).completes == |ObjectifsFiltres(objectifs, Completes, "")|
    ensures Statistiques(objectifs).enCours == |ObjectifsFiltres(objectifs, Actifs, "")|
  {
    EmptySearchKeepsAll(objectifs, Completes);
    EmptySearchKeepsAll(objectifs, Actifs);
    FilterLengthsAgree(objectifs, IsComplete, objectifs, StatusTest(Completes));
    FilterLengthsAgree(objectifs, IsActive, objectifs, StatusTest(Actifs));
  }

  /** A successful add counts one more objective, in progress and not a priority; a
      refused add changes no figure. */
  lemma AjouterStats(objectifs: seq<Objectif>, id: int, titre: string, description: string,
                     dateLimite: string, categorie: string)
    ensures var avant := Statistiques(objectifs);
            var apres := Statistiques(AjouterObjectif(objectifs, id, titre, description, dateLimite, categorie));
            if IsBlank(titre) then apres == avant
            else apres == Stats(avant.total + 1, avant.completes, avant.enCours + 1, avant.prioritaires)
  {
    if !IsBlank(titre) {
      var r := AjouterObjectif(objectifs, id, titre, description, dateLimite, categorie);
      var nouveau := r[|objectifs|];
      assert r == objectifs + [nouveau];
      FilterAppend(objectifs, nouveau, IsComplete);
      FilterAppend(objectifs, nouveau, IsActive);
      FilterAppend(objectifs, nouveau, IsPrioritaire);
    }
  }

  /** Toggling completion keeps the total and the priority count. */
  lemma ToggleCompleteStats(objectifs: seq<Objectif>, id: int)
    ensures Statistiques(ToggleComplete(objectifs, id)).total == Statistiques(objectifs).total
    ensures Statistiques(ToggleComplete(objectifs, id)).prioritaires == Statistiques(objectifs).prioritaires
  {
    var r := ToggleComplete(objectifs, id);
    forall i | 0 <= i < |r| ensures IsPrioritaire(r[i]) <==> IsPrioritaire(objectifs[i]) {
      assert r[i].(complete := objectifs[i].complete) == objectifs[i];
    }
    FilterLengthsAgree(r, IsPrioritaire, objectifs, IsPrioritaire);
  }

  /** Toggling priority keeps the total, the completed count and the in-progress count. */
  lemma TogglePrioriteStats(objectifs: seq<Objectif>, id: int)
    ensures Statistiques(TogglePriorite(objectifs, id)).total == Statistiques(objectifs).total
    ensures Statistiques(TogglePriorite(objectifs, id)).completes == Statistiques(objectifs).completes
    ensures Statistiques(TogglePriorite(objectifs, id)).enCours == Statistiques(objectifs).enCours
  {
    var r := TogglePriorite(objectifs, id);
    forall i | 0 <= i < |r| ensures r[i].complete == objectifs[i].complete {
      assert r[i].(priorite := objectifs[i].priorite) == objectifs[i];
    }
    FilterLengthsAgree(r, IsComplete, objectifs, IsComplete);
    FilterLengthsAgree(r, IsActive, objectifs, IsActive);
  }

  // ---------------------------------------------------------------------------
  // A whole scenario

  /** Adding an objective under any id shows it among the active objectives and not
      among the completed ones; toggling completion for that id moves it to the
      completed view and out of the active one. */
  lemma AddThenComplete(objectifs: seq<Objectif>, id: int, titre: string, description: string,
                        dateLimite: string, categorie: string)
    requires !IsBlank(titre)
    ensures var ajoute := AjouterObjectif(objectifs, id, titre, description, dateLimite, categorie);
            var nouveau := Objectif(id, titre, description, dateLimite, false, false, categorie);
            && nouveau in ObjectifsFiltres(ajoute, Actifs, "")
            && nouveau !in ObjectifsFiltres(ajoute, Completes, "")
            && nouveau.(complete := true) in ObjectifsFiltres(ToggleComplete(ajoute, id), Completes, "")
            && nouveau.(complete := true) !in ObjectifsFiltres(ToggleComplete(ajoute, id), Actifs, "")
  {
    var ajoute := AjouterObjectif(objectifs, id, titre, description, dateLimite, categorie);
    var nouveau := Objectif(id, titre, description, dateLimite, false, false, categorie);
    var n := |objectifs|;
    assert ajoute[n] == nouveau;
    var bascule := ToggleComplete(ajoute, id);
    assert bascule[n] == nouveau.(complete := true);
    assert Lower("") == "";
    assert MatchesSearch(nouveau, "");
    assert MatchesSearch(nouveau.(complete := true), "");
  }

  /** When no entry already carries the id, toggling completion right after the add
      takes the new objective out of the active view altogether: that view is again
      the active view of the list before the add. */
  lemma AddFreshThenComplete(objectifs: seq<Objectif>, id: int, titre: string, description: string,
                             dateLimite: string, categorie: string)
    requires !IsBlank(titre)
    requires forall o :: o in objectifs ==> o.id != id
    ensures var ajoute := AjouterObjectif(objectifs, id, titre, description, dateLimite, categorie);
            var nouveau := Objectif(id, titre, description, dateLimite, false, false, categorie);
            && nouveau !in ObjectifsFiltres(ToggleComplete(ajoute, id), Actifs, "")
            && ObjectifsFiltres(ToggleComplete(ajoute, id), Actifs, "") == ObjectifsFiltres(objectifs, Actifs, "")
  {
    var ajoute := AjouterObjectif(objectifs, id, titre, description, dateLimite, categorie);
    var nouveau := Objectif(id, titre, description, dateLimite, false, false, categorie);
    var n := |objectifs|;
    assert ajoute == objectifs + [nouveau];
    var bascule := ToggleComplete(ajoute, id);
    ToggleCompleteAbsent(objectifs, id);
    forall i | 0 <= i < n ensures bascule[i] == objectifs[i] {
      assert objectifs[i] in objectifs;
      assert ajoute[i] == objectifs[i];
    }
    assert bascule[n] == nouveau.(complete := true);
    assert bascule == objectifs + [nouveau.(complete := true)];
    FilterAppend(objectifs, nouveau.(complete := true), StatusTest(Actifs));
    EmptySearchKeepsAll(bascule, Actifs);
    EmptySearchKeepsAll(objectifs, Actifs);
  }

  // ---------------------------------------------------------------------------
  // Category colours

  /** The known categories have pairwise different colours, none of them the default,
      and the category the form starts with has none of its own. */
  lemma CouleursDistinctes()
    ensures forall a, b :: a in COULEURS && b in COULEURS && a != b ==> CategorieColor(a) != CategorieColor(b)
    ensures COULEUR_PAR_DEFAUT !in COULEURS.Values
    ensures CategorieColor(CATEGORIE_PAR_DEFAUT) == COULEUR_PAR_DEFAUT
  {
  }
}
