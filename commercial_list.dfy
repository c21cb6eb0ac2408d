/**
 * The commercials list of the dashboard: a search box that filters the fixed
 * source array on `nom`, `prenom` and `email`, and a delete button per row
 * that removes rows from the list currently displayed.
 */
module CommercialList {
  import opened Text
  import opened Lists

  datatype Commercial = Commercial(id: int, nom: string, prenom: string, email: string, telephone: string)

  /** The hard-coded source array every search starts from. */
  const Commerciaux: seq<Commercial> := [JeanDubois, SophieMartin, PierreBernard]

  const JeanDubois := Commercial(1, "Dubois", "Jean", "jean.dubois@example.com", "0123456789")
  const SophieMartin := Commercial(2, "Martin", "Sophie", "sophie.martin@example.com", "0234567890")
  const PierreBernard := Commercial(3, "Bernard", "Pierre", "pierre.bernard@example.com", "0345678901")

  /** The component's state: the search box's text and the rows on screen. */
  datatype ListState = ListState(searchTerm: string, displayed: seq<Commercial>)

  const Initial: ListState := ListState("", Commerciaux)

  /** A row matches an (already lower-cased) term on its name, first name or e-mail. */
  predicate Matches(c: Commercial, term: string)
  {
    Includes(Lower(c.nom), term) || Includes(Lower(c.prenom), term) || Includes(Lower(c.email), term)
  }

  function MatchesTerm(term: string): Commercial -> bool
  {
    (c: Commercial) => Matches(c, term)
  }

  function HasOtherId(id: int): Commercial -> bool
  {
    (c: Commercial) => c.id != id
  }

  /** The rows of `source` matching the typed text, lower-cased first. */
  function Search(source: seq<Commercial>, typed: string): (r: seq<Commercial>)
    ensures forall c :: c in r ==> c in source && Matches(c, Lower(typed))
    ensures forall c :: c in source && Matches(c, Lower(typed)) ==> c in r
    ensures IsSubsequence(r, source)
    ensures multiset(r) <= multiset(source)
    ensures forall c :: c in source && Matches(c, Lower(typed)) ==> multiset(r)[c] == multiset(source)[c]
  {
    FilterIsSubsequence(source, MatchesTerm(Lower(typed)));
    Filter(source, MatchesTerm(Lower(typed)))
  }

  /** `handleSearch`: stores the lower-cased text and filters the source array. */
  function HandleSearch(st: ListState, typed: string): (r: ListState)
    ensures r.searchTerm == Lower(typed)
    ensures forall c :: c in r.displayed ==> c in Commerciaux && Matches(c, r.searchTerm)
    ensures forall c :: c in Commerciaux && Matches(c, r.searchTerm) ==> c in r.displayed
    ensures IsSubsequence(r.displayed, Commerciaux)
  {
    ListState(Lower(typed), Search(Commerciaux, typed))
  }

  /** `handleDelete`: drops every displayed row with the given id. */
  function HandleDelete(st: ListState, id: int): (r: ListState)
    ensures r.searchTerm == st.searchTerm
    ensures forall c :: c in r.displayed ==> c in st.displayed && c.id != id
    ensures forall c :: c in st.displayed && c.id != id ==> c in r.displayed
    ensures IsSubsequence(r.displayed, st.displayed)
    ensures multiset(r.displayed) <= multiset(st.displayed)
    ensures forall c :: c in st.displayed && c.id != id ==> multiset(r.displayed)[c] == multiset(st.displayed)[c]
  {
    FilterIsSubsequence(st.displayed, HasOtherId(id));
    st.(displayed := Filter(st.displayed, HasOtherId(id)))
  }

  /** The term kept in the state is always in lower case. */
  lemma StoredTermIsLowercase(st: ListState, typed: string)
    ensures Lower(HandleSearch(st, typed).searchTerm) == HandleSearch(st, typed).searchTerm
  {
    LowerIdempotent(typed);
  }

  /** An empty search box shows the whole source array, in order. */
  lemma EmptySearchShowsAll(source: seq<Commercial>)
    ensures Search(source, "") == source
  {
    forall c | c in source ensures Matches(c, Lower("")) {
      IncludesEmpty(Lower(c.nom));
    }
    FilterAllKept(source, MatchesTerm(Lower("")));
  }

  /** Search reads only the source array and the text, never the rows on screen. */
  lemma SearchIgnoresDisplayed(st1: ListState, st2: ListState, typed: string)
    ensures HandleSearch(st1, typed) == HandleSearch(st2, typed)
  {
  }

  /**
   * Deleted rows come back: after deleting commercial 1 and then clearing
   * the search box, commercial 1 is displayed again.
   */
  lemma DeletedRowReappears()
    ensures forall c :: c in HandleDelete(Initial, 1).displayed ==> c.id != 1
    ensures HandleSearch(HandleDelete(Initial, 1), "").displayed == Commerciaux
    ensures JeanDubois in HandleSearch(HandleDelete(Initial, 1), "").displayed
  {
    EmptySearchShowsAll(Commerciaux);
  }

  /** A row lacking, in either case, some letter of the term does not match it. */
  lemma MissingLetterNoMatch(c: Commercial, term: string, j: int, letter: char)
    requires 0 <= j < |term| && term[j] == letter && IsLowerAscii(letter)
    requires letter !in c.nom && letter !in c.prenom && letter !in c.email
    requires var upper := (letter as int - 32) as char; upper !in c.nom && upper !in c.prenom && upper !in c.email
    ensures !Matches(c, term)
  {
    LowerMissingLetter(c.nom, term[j]);
    LowerMissingLetter(c.prenom, term[j]);
    LowerMissingLetter(c.email, term[j]);
    NotIncludesMissingChar(Lower(c.nom), term, j);
    NotIncludesMissingChar(Lower(c.prenom), term, j);
    NotIncludesMissingChar(Lower(c.email), term, j);
  }

  /** Deleting an id that is not displayed leaves the display unchanged. */
  lemma DeleteAbsentIdIsNoop(st: ListState, id: int)
    requires forall c :: c in st.displayed ==> c.id != id
    ensures HandleDelete(st, id) == st
  {
    FilterAllKept(st.displayed, HasOtherId(id));
  }

  /** Deleting the same id twice is deleting it once. */
  lemma DeleteIdempotent(st: ListState, id: int)
    ensures HandleDelete(HandleDelete(st, id), id) == HandleDelete(st, id)
  {
    FilterIdempotent(st.displayed, HasOtherId(id));
  }
}

/**
 * Concrete runs of the commercials list on its hard-coded rows.
 */
module CommercialListScenarios {
  import opened Text
  import opened Lists
  import opened CommercialList

  /** Sophie Martin's row matches "martin" on its name. */
  lemma MartinRowMatches()
    ensures Matches(SophieMartin, "martin")
  {
    assert Lower(SophieMartin.nom) == "martin";
    IncludesSelf("martin");
  }

  /** A row with no `t` or `T` in any searched field does not match "martin". */
  lemma RowWithoutTMisses(c: Commercial)
    requires LacksT(c.nom) && LacksT(c.prenom) && LacksT(c.email)
    ensures !Matches(c, "martin")
  {
    assert (('t' as int) - 32) as char == 'T';
    MissingLetterNoMatch(c, "martin", 3, 't');
  }

  /** The letter `t` appears in neither case in `s`. */
  predicate LacksT(s: string)
  {
    't' !in s && 'T' !in s
  }

  lemma DuboisRowLacksT()
    ensures LacksT(JeanDubois.nom) && LacksT(JeanDubois.prenom)
  {
  }

  lemma DuboisEmailLacksT()
    ensures LacksT(JeanDubois.email)
  {
    var s := JeanDubois.email;
    assert forall i | 0 <= i < |s| :: s[i] != 't' && s[i] != 'T';
  }

  lemma BernardRowLacksT()
    ensures LacksT(PierreBernard.nom) && LacksT(PierreBernard.prenom)
  {
  }

  lemma BernardEmailLacksT()
    ensures LacksT(PierreBernard.email)
  {
    var s := PierreBernard.email;
    assert forall i | 0 <= i < |s| :: s[i] != 't' && s[i] != 'T';
  }

  /** Typing "Martin" narrows the three source rows to Sophie Martin's alone. */
  lemma SearchNarrowsToOneRow(st: ListState)
    ensures HandleSearch(st, "Martin").displayed == [SophieMartin]
  {
    assert Lower("Martin") == "martin";
    var p := MatchesTerm("martin");
    DuboisRowLacksT();
    DuboisEmailLacksT();
    RowWithoutTMisses(JeanDubois);
    BernardRowLacksT();
    BernardEmailLacksT();
    RowWithoutTMisses(PierreBernard);
    MartinRowMatches();
    calc {
      Filter(Commerciaux, p);
      Filter(Commerciaux[1..], p);
      [SophieMartin] + Filter(Commerciaux[2..], p);
      [SophieMartin] + Filter(Commerciaux[3..], p);
    }
  }
}
