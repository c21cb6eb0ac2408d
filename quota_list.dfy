/**
 * The quotas list: a search box filtering the fixed quota array on the
 * commercial's name and the two dates, and a status column telling whether
 * the target count was reached.
 */
module QuotaList {
  import opened Text
  import opened Lists

  datatype Quota = Quota(
    id: int,
    commercialId: int,
    commercialNom: string,
    dateDebut: string,
    dateFin: string,
    nombreCible: int,
    nombreRealise: int)

  /** The hard-coded source array every search starts from. */
  const Quotas: seq<Quota> := [
    Quota(1, 1, "Jean Dubois", "2024-01-01", "2024-03-31", 50, 45),
    Quota(2, 2, "Sophie Martin", "2024-01-01", "2024-03-31", 40, 42),
    Quota(3, 3, "Pierre Bernard", "2024-01-01", "2024-03-31", 60, 55)
  ]

  datatype ListState = ListState(searchTerm: string, displayed: seq<Quota>)

  const Initial: ListState := ListState("", Quotas)

  /**
   * A quota matches an (already lower-cased) term on its lower-cased
   * commercial name, or on either date string taken as it is.
   */
  predicate Matches(q: Quota, term: string)
  {
    Includes(Lower(q.commercialNom), term) || Includes(q.dateDebut, term) || Includes(q.dateFin, term)
  }

  function MatchesTerm(term: string): Quota -> bool
  {
    (q: Quota) => Matches(q, term)
  }

  /** The quotas of `source` matching the typed text, lower-cased first. */
  function Search(source: seq<Quota>, typed: string): (r: seq<Quota>)
    ensures forall q :: q in r ==> q in source && Matches(q, Lower(typed))
    ensures forall q :: q in source && Matches(q, Lower(typed)) ==> q in r
    ensures IsSubsequence(r, source)
    ensures multiset(r) <= multiset(source)
    ensures forall q :: q in source && Matches(q, Lower(typed)) ==> multiset(r)[q] == multiset(source)[q]
  {
    FilterIsSubsequence(source, MatchesTerm(Lower(typed)));
    Filter(source, MatchesTerm(Lower(typed)))
  }

  /** `handleSearch`: stores the lower-cased text and filters the source array. */
  function HandleSearch(st: ListState, typed: string): (r: ListState)
    ensures r.searchTerm == Lower(typed)
    ensures forall q :: q in r.displayed ==> q in Quotas && Matches(q, r.searchTerm)
    ensures forall q :: q in Quotas && Matches(q, r.searchTerm) ==> q in r.displayed
    ensures IsSubsequence(r.displayed, Quotas)
  {
    ListState(Lower(typed), Search(Quotas, typed))
  }

  /** The two labels of the status column. */
  const Reached := "Atteint"
  const NotReached := "Non atteint"

  /** `getStatus`: whether the realised count reached the target. */
  function GetStatus(q: Quota): (s: string)
    ensures s == Reached || s == NotReached
    ensures s == Reached <==> q.nombreRealise >= q.nombreCible
  {
    if q.nombreRealise >= q.nombreCible then Reached else NotReached
  }

  datatype Colour = Green | Red

  /** The status cell is green exactly for a reached target. */
  function StatusColour(q: Quota): (c: Colour)
    ensures c == Green <==> q.nombreRealise >= q.nombreCible
  {
    if GetStatus(q) == Reached then Green else Red
  }

  /** Meeting the target exactly counts as reached. */
  lemma StatusReachedAtEquality(q: Quota)
    requires q.nombreRealise == q.nombreCible
    ensures GetStatus(q) == Reached
  {
  }

  /** The status reads the two counts and nothing else of the quota. */
  lemma StatusDependsOnlyOnCounts(q1: Quota, q2: Quota)
    requires q1.nombreCible == q2.nombreCible && q1.nombreRealise == q2.nombreRealise
    ensures GetStatus(q1) == GetStatus(q2)
  {
  }

  /** An empty search box shows every quota, in order. */
  lemma EmptySearchShowsAll(source: seq<Quota>)
    ensures Search(source, "") == source
  {
    forall q | q in source ensures Matches(q, Lower("")) {
      IncludesEmpty(Lower(q.commercialNom));
    }
    FilterAllKept(source, MatchesTerm(Lower("")));
  }
  /** Clearing the search box brings back the page's initial state, whatever came before. */
  lemma ClearingSearchRestoresInitial(st: ListState)
    ensures HandleSearch(st, "") == Initial
  {
    EmptySearchShowsAll(Quotas);
  }


  /**
   * Searches do not compound: a search gives the same rows whatever was
   * searched before, since each one starts again from the source array.
   */
  lemma SearchesDoNotCompound(st: ListState, first: string, second: string)
    ensures HandleSearch(HandleSearch(st, first), second) == HandleSearch(st, second)
    ensures HandleSearch(HandleSearch(st, first), "").displayed == Quotas
  {
    EmptySearchShowsAll(Quotas);
  }

  /** Upper-case letters in the text do not matter: it is lower-cased before matching. */
  lemma SearchIsCaseInsensitive(st: ListState, typed: string)
    ensures HandleSearch(st, Lower(typed)) == HandleSearch(st, typed)
  {
    LowerIdempotent(typed);
  }

  /** The initial quotas: the first and third targets are missed, the second is reached. */
  lemma InitialStatuses()
    ensures GetStatus(Quotas[0]) == NotReached
    ensures GetStatus(Quotas[1]) == Reached
    ensures GetStatus(Quotas[2]) == NotReached
  {
  }
}
