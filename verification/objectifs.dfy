/** The objective list of the goal tracker: the `Objectif` record, the four operations
    that build a new list from the current one (add, toggle completion, toggle
    priority, delete), the filtered view shown to the user, the statistics panel and
    the category colour lookup. Every operation is a pure function from the current
    list to the next one; the list is never changed in place. */
module Objectifs {
  import opened Lists
  import opened Text

  /** One objective. `id` is a millisecond timestamp taken at creation; nothing makes
      it unique, so every operation keyed by an id acts on all entries carrying it. */
  datatype Objectif = Objectif(
    id: int,
    titre: string,
    description: string,
    dateLimite: string,
    complete: bool,
    priorite: bool,
    categorie: string)

  /** The three status filters of the list view. */
  datatype Filtre = Tous | Actifs | Completes

  /** The four figures of the statistics panel. */
  datatype Stats = Stats(total: nat, completes: nat, enCours: nat, prioritaires: nat)

  /** The category the form starts with and returns to after each submission. */
  const CATEGORIE_PAR_DEFAUT: string := "personnel"

  /** The colour classes of the known categories, and the one used for any other. */
  const COULEURS: map<string, string> := map[
    "eventmaking" := "bg-blue-100 text-blue-800",
    "mapping" := "bg-purple-100 text-purple-800",
    "code" := "bg-green-100 text-green-800",
    "uidesign" := "bg-red-100 text-red-800"]
  const COULEUR_PAR_DEFAUT: string := "bg-gray-100 text-gray-800"

  // ---------------------------------------------------------------------------
  // The predicates the list transforms are applied with

  function HasId(id: int): Objectif -> bool {
    (o: Objectif) => o.id == id
  }

  function HasOtherId(id: int): Objectif -> bool {
    (o: Objectif) => o.id != id
  }

  predicate IsComplete(o: Objectif) {
    o.complete
  }

  predicate IsActive(o: Objectif) {
    !o.complete
  }

  predicate IsPrioritaire(o: Objectif) {
    o.priorite
  }

  /** The status test of the view: `actifs` keeps the incomplete entries, `completes`
      the complete ones, and `tous` every entry. */
  predicate PassesStatus(filtre: Filtre, o: Objectif) {
    match filtre
    case Actifs => !o.complete
    case Completes => o.complete
    case Tous => true
  }

  function StatusTest(filtre: Filtre): Objectif -> bool {
    (o: Objectif) => PassesStatus(filtre, o)
  }

  /** The search test: the lower-cased query occurs in the lower-cased title or in the
      lower-cased description. */
  predicate MatchesSearch(o: Objectif, recherche: string) {
    Includes(Lower(o.titre), Lower(recherche)) || Includes(Lower(o.description), Lower(recherche))
  }

  function SearchTest(recherche: string): Objectif -> bool {
    (o: Objectif) => MatchesSearch(o, recherche)
  }

  // ---------------------------------------------------------------------------
  // Operations on the list

  /** Submitting the form. A title that trims to the empty string is refused and the
      list is returned as it was; otherwise a new objective, neither complete nor
      priority, is appended after the existing ones. */
  function AjouterObjectif(objectifs: seq<Objectif>, id: int, titre: string, description: string,
                           dateLimite: string, categorie: string): (r: seq<Objectif>)
    ensures IsBlank(titre) ==> r == objectifs
    ensures !IsBlank(titre) ==>
      && |r| == |objectifs| + 1
      && r[..|objectifs|] == objectifs
      && r[|objectifs|].id == id && r[|objectifs|].titre == titre
      && r[|objectifs|].description == description && r[|objectifs|].dateLimite == dateLimite
      && r[|objectifs|].categorie == categorie
      && !r[|objectifs|].complete && !r[|objectifs|].priorite
  {
    TrimEmptyIffBlank(titre);
    if Trim(titre) == [] then objectifs
    else objectifs + [Objectif(id, titre, description, dateLimite, false, false, categorie)]
  }

  /** Flips `complete` on every entry whose id is `id`; every other field, and every
      other entry, is kept, in the same order. */
  function ToggleComplete(objectifs: seq<Objectif>, id: int): (r: seq<Objectif>)
    ensures |r| == |objectifs|
    ensures forall i :: 0 <= i < |r| ==> r[i].(complete := objectifs[i].complete) == objectifs[i]
    ensures forall i :: 0 <= i < |r| ==>
      r[i].complete == (if objectifs[i].id == id then !objectifs[i].complete else objectifs[i].complete)
  {
    Map(objectifs, (o: Objectif) => if o.id == id then o.(complete := !o.complete) else o)
  }

  /** Flips `priorite` on every entry whose id is `id`; every other field, and every
      other entry, is kept, in the same order. */
  function TogglePriorite(objectifs: seq<Objectif>, id: int): (r: seq<Objectif>)
    ensures |r| == |objectifs|
    ensures forall i :: 0 <= i < |r| ==> r[i].(priorite := objectifs[i].priorite) == objectifs[i]
    ensures forall i :: 0 <= i < |r| ==>
      r[i].priorite == (if objectifs[i].id == id then !objectifs[i].priorite else objectifs[i].priorite)
  {
    Map(objectifs, (o: Objectif) => if o.id == id then o.(priorite := !o.priorite) else o)
  }

  /** Removes every entry whose id is `id`. What remains is the rest of the list in its
      original order, and it has lost exactly as many entries as carried the id. */
  function SupprimerObjectif(objectifs: seq<Objectif>, id: int): (r: seq<Objectif>)
    ensures forall o :: o in r <==> o in objectifs && o.id != id
    ensures forall o :: multiset(r)[o] == if o.id != id then multiset(objectifs)[o] else 0
    ensures IsSubsequence(r, objectifs)
    ensures |r| + |Filter(objectifs, HasId(id))| == |objectifs|
  {
    FilterComplementLengths(objectifs, HasOtherId(id), HasId(id));
    Filter(objectifs, HasOtherId(id))
  }

  /** The first stage of the view: the entries that pass the status filter. */
  function StatusView(objectifs: seq<Objectif>, filtre: Filtre): (r: seq<Objectif>)
    ensures forall o :: o in r <==> o in objectifs && PassesStatus(filtre, o)
    ensures forall o :: multiset(r)[o] == if PassesStatus(filtre, o) then multiset(objectifs)[o] else 0
    ensures IsSubsequence(r, objectifs)
  {
    Filter(objectifs, StatusTest(filtre))
  }

  /** The list shown to the user: the status filter, then the search, both applied, so
      an entry is shown when it passes both, as many times as it is in the list. */
  function ObjectifsFiltres(objectifs: seq<Objectif>, filtre: Filtre, recherche: string): (r: seq<Objectif>)
    ensures forall o :: o in r <==> o in objectifs && PassesStatus(filtre, o) && MatchesSearch(o, recherche)
    ensures forall o :: multiset(r)[o] == if PassesStatus(filtre, o) && MatchesSearch(o, recherche) then multiset(objectifs)[o] else 0
    ensures IsSubsequence(r, objectifs)
  {
    var parStatut := StatusView(objectifs, filtre);
    var r := Filter(parStatut, SearchTest(recherche));
    SubsequenceTransitive(r, parStatut, objectifs);
    r
  }

  /** The statistics panel: the number of entries, of complete ones, of incomplete
      ones and of priority ones. Every entry is either complete or in progress, and the
      priority entries are some of them. */
  function Statistiques(objectifs: seq<Objectif>): (s: Stats)
    ensures s.total == |objectifs|
    ensures s.completes == |set i | 0 <= i < |objectifs| && objectifs[i].complete|
    ensures s.enCours == |set i | 0 <= i < |objectifs| && !objectifs[i].complete|
    ensures s.prioritaires == |set i | 0 <= i < |objectifs| && objectifs[i].priorite|
    ensures s.completes + s.enCours == s.total
    ensures s.prioritaires <= s.total
  {
    FilterComplementLengths(objectifs, IsComplete, IsActive);
    CompleteCount(objectifs);
    ActiveCount(objectifs);
    PrioritaireCount(objectifs);
    var completes := |Filter(objectifs, IsComplete)|;
    var enCours := |Filter(objectifs, IsActive)|;
    var prioritaires := |Filter(objectifs, IsPrioritaire)|;
    Stats(|objectifs|, completes, enCours, prioritaires)
  }

  // The three counts of the panel, as numbers of positions.

  lemma CompleteCount(objectifs: seq<Objectif>)
    ensures |Filter(objectifs, IsComplete)| == |set i | 0 <= i < |objectifs| && objectifs[i].complete|
  {
    FilterLengthIsCount(objectifs, IsComplete, set i | 0 <= i < |objectifs| && objectifs[i].complete);
  }

  lemma ActiveCount(objectifs: seq<Objectif>)
    ensures |Filter(objectifs, IsActive)| == |set i | 0 <= i < |objectifs| && !objectifs[i].complete|
  {
    FilterLengthIsCount(objectifs, IsActive, set i | 0 <= i < |objectifs| && !objectifs[i].complete);
  }

  lemma PrioritaireCount(objectifs: seq<Objectif>)
    ensures |Filter(objectifs, IsPrioritaire)| == |set i | 0 <= i < |objectifs| && objectifs[i].priorite|
  {
    FilterLengthIsCount(objectifs, IsPrioritaire, set i | 0 <= i < |objectifs| && objectifs[i].priorite);
  }

  /** The colour classes of a category badge: the table entry for a known category,
      the grey default for any other. The default is not the colour of any known
      category, so it shows exactly the unknown ones. */
  function CategorieColor(categorie: string): (r: string)
    ensures categorie in COULEURS ==> r == COULEURS[categorie]
    ensures r == COULEUR_PAR_DEFAUT <==> categorie !in COULEURS
  {
    if categorie in COULEURS && COULEURS[categorie] != "" then COULEURS[categorie]
    else COULEUR_PAR_DEFAUT
  }
}
