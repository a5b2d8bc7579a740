/** The drug page (frontend/pages/_Medicaments.py): a search box whose term
    is sent to `GET /medicaments/search` once it has three characters, and
    the first hundred catalogue entries while the box is empty. */
module MedicamentsPage {
  import opened Seqs
  import opened Models
  import opened Http
  import opened Medicaments

  /** What the page shows below the search box: the results, the "no
      result" warning, the "at least 3 characters" hint, or the default
      listing (no table when that listing is empty). */
  datatype DrugPage = Found(results: seq<Medicament>) | NoResult | TooShort | Listing(drugs: seq<Medicament>)

  /** The page for the term typed in the box. The client calls the search
      without a `limit`, so the backend's default applies, and it lists the
      catalogue with `skip=0, limit=100`. A refused request makes the client
      return `[]`, which the page shows as the warning. */
  function DrugPageFor(store: Store, query: string): (v: DrugPage)
    ensures v.Listing? <==> query == []
    ensures v.TooShort? <==> 0 < |query| < SEARCH_MIN_LENGTH
    ensures v.Listing? ==> |v.drugs| == Min(DEFAULT_LIMIT, |store.medicaments|)
    ensures v.Listing? ==> forall i :: 0 <= i < |v.drugs| ==> v.drugs[i] == store.medicaments[i]
    ensures v.Found? ==> 0 < |v.results| <= SEARCH_DEFAULT_LIMIT
    ensures v.Found? ==> forall m :: m in v.results ==> m in store.medicaments && NameMatches(m, query)
    ensures v.NoResult? <==>
      |query| >= SEARCH_MIN_LENGTH && forall m :: m in store.medicaments ==> !NameMatches(m, query)
  {
    if query != [] && |query| >= SEARCH_MIN_LENGTH then
      match SearchMedicaments(store, query, SEARCH_DEFAULT_LIMIT)
      case Ok(results) =>
        SubsequenceMembers(results, store.medicaments);
        if results != [] then
          assert results[0] in results;
          Found(results)
        else NoResult
      case _ => NoResult
    else if query != [] then TooShort
    else Listing(GetAllMedicaments(store, DEFAULT_SKIP, DEFAULT_LIMIT))
  }

  /** The page's own length check is the backend's: every term the page
      sends is accepted, so the 422 never reaches it. */
  lemma PageTermsAccepted(store: Store, query: string)
    requires !DrugPageFor(store, query).Listing? && !DrugPageFor(store, query).TooShort?
    ensures Status(SearchMedicaments(store, query, SEARCH_DEFAULT_LIMIT)) == 200
  {
  }
}
