/**
 * The prospections list: a search box filtering the fixed prospection array
 * on the commercial's name, the company and the contact, and a coloured
 * badge for each prospection's status.
 */
module ProspectionList {
  import opened Text
  import opened Lists

  /**
   * `statut` is declared as one of "En cours", "Terminé" or "Annulé", but
   * the badge logic handles any string, so it is kept a string here.
   */
  datatype Prospection = Prospection(
    id: int,
    commercialId: int,
    commercialNom: string,
    dateProspection: string,
    entreprise: string,
    contact: string,
    statut: string)

  const InProgress := "En cours"
  const Finished := "Terminé"
  const Cancelled := "Annulé"

  /** The hard-coded source array every search starts from. */
  const Prospections: seq<Prospection> := [
    Prospection(1, 1, "Jean Dubois", "2024-02-15", "Entreprise A", "Marie Dupont", InProgress),
    Prospection(2, 2, "Sophie Martin", "2024-02-16", "Entreprise B", "Paul Martin", Finished),
    Prospection(3, 3, "Pierre Bernard", "2024-02-17", "Entreprise C", "Lucie Durand", Cancelled)
  ]

  datatype ListState = ListState(searchTerm: string, displayed: seq<Prospection>)

  const Initial: ListState := ListState("", Prospections)

  /** A prospection matches an (already lower-cased) term on name, company or contact. */
  predicate Matches(p: Prospection, term: string)
  {
    Includes(Lower(p.commercialNom), term) || Includes(Lower(p.entreprise), term) || Includes(Lower(p.contact), term)
  }

  function MatchesTerm(term: string): Prospection -> bool
  {
    (p: Prospection) => Matches(p, term)
  }

  /** The prospections of `source` matching the typed text, lower-cased first. */
  function Search(source: seq<Prospection>, typed: string): (r: seq<Prospection>)
    ensures forall p :: p in r ==> p in source && Matches(p, Lower(typed))
    ensures forall p :: p in source && Matches(p, Lower(typed)) ==> p in r
    ensures IsSubsequence(r, source)
    ensures multiset(r) <= multiset(source)
    ensures forall p :: p in source && Matches(p, Lower(typed)) ==> multiset(r)[p] == multiset(source)[p]
  {
    FilterIsSubsequence(source, MatchesTerm(Lower(typed)));
    Filter(source, MatchesTerm(Lower(typed)))
  }

  /** `handleSearch`: stores the lower-cased text and filters the source array. */
  function HandleSearch(st: ListState, typed: string): (r: ListState)
    ensures r.searchTerm == Lower(typed)
    ensures forall p :: p in r.displayed ==> p in Prospections && Matches(p, r.searchTerm)
    ensures forall p :: p in Prospections && Matches(p, r.searchTerm) ==> p in r.displayed
    ensures IsSubsequence(r.displayed, Prospections)
  {
    ListState(Lower(typed), Search(Prospections, typed))
  }

  /** Status and date are never looked at by the search. */
  lemma SearchIgnoresStatusAndDate(p: Prospection, statut: string, date: string, term: string)
    ensures Matches(p.(statut := statut, dateProspection := date), term) == Matches(p, term)
  {
  }

  /** An empty search box shows every prospection, in order. */
  lemma EmptySearchShowsAll(source: seq<Prospection>)
    ensures Search(source, "") == source
  {
    forall p | p in source ensures Matches(p, Lower("")) {
      IncludesEmpty(Lower(p.commercialNom));
    }
    FilterAllKept(source, MatchesTerm(Lower("")));
  }
  /** Clearing the search box brings back the page's initial state, whatever came before. */
  lemma ClearingSearchRestoresInitial(st: ListState)
    ensures HandleSearch(st, "") == Initial
  {
    EmptySearchShowsAll(Prospections);
  }


  datatype Badge = Yellow | Green | Red

  /** The status badge: yellow in progress, green finished, red for anything else. */
  function StatusBadge(statut: string): (b: Badge)
    ensures b == Yellow <==> statut == InProgress
    ensures b == Green <==> statut == Finished
    ensures b == Red <==> statut != InProgress && statut != Finished
  {
    if statut == InProgress then Yellow
    else if statut == Finished then Green
    else Red
  }

  /** The three declared statuses get three different badges. */
  lemma DeclaredStatusesHaveDistinctBadges()
    ensures StatusBadge(InProgress) == Yellow
    ensures StatusBadge(Finished) == Green
    ensures StatusBadge(Cancelled) == Red
  {
  }
}
