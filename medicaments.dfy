/** The drug-catalogue endpoints (backend/app/routers/medicaments.py):
    paging through the catalogue, case-insensitive search by name, and
    lookup by primary key. */
module Medicaments {
  import opened Seqs
  import opened Models
  import opened Http

  const DEFAULT_SKIP: nat := 0
  const DEFAULT_LIMIT: nat := 100
  /** `Query(..., min_length=3)` on the search term. */
  const SEARCH_MIN_LENGTH: nat := 3
  const SEARCH_DEFAULT_LIMIT: nat := 20
  const MEDICAMENT_NOT_FOUND: string := "Médicament non trouvé"

  /** `get_all_medicaments`: `OFFSET skip LIMIT limit` over the catalogue in
      store order. */
  function GetAllMedicaments(store: Store, skip: nat, limit: nat): (page: seq<Medicament>)
    ensures |page| == if skip >= |store.medicaments| then 0 else Min(limit, |store.medicaments| - skip)
    ensures forall i :: 0 <= i < |page| ==> page[i] == store.medicaments[skip + i]
  {
    var cat := store.medicaments;
    if skip >= |cat| then [] else cat[skip..skip + Min(limit, |cat| - skip)]
  }

  /** Two consecutive pages make up the page that spans both. */
  lemma PagesConcatenate(store: Store, skip: nat, a: nat, b: nat)
    ensures GetAllMedicaments(store, skip, a) + GetAllMedicaments(store, skip + a, b)
         == GetAllMedicaments(store, skip, a + b)
  {
    var left := GetAllMedicaments(store, skip, a);
    var right := GetAllMedicaments(store, skip + a, b);
    var whole := GetAllMedicaments(store, skip, a + b);
    assert |left + right| == |whole|;
    forall i | 0 <= i < |whole| ensures (left + right)[i] == whole[i] {
      if i >= |left| {
        assert (left + right)[i] == right[i - |left|];
      }
    }
  }

  /** One page as large as the catalogue is the whole catalogue. */
  lemma FirstPageCoversCatalogue(store: Store, limit: nat)
    requires limit >= |store.medicaments|
    ensures GetAllMedicaments(store, 0, limit) == store.medicaments
  {
    var page := GetAllMedicaments(store, 0, limit);
    assert |page| == |store.medicaments|;
  }

  /** `ILIKE` case folding: ASCII and Latin-1 capital letters map to their
      small letters (the multiplication sign U+00D7 is not a letter). */
  function LowerChar(c: char): (d: char)
    ensures 'a' <= d <= 'z' ==> 'A' <= c <= 'Z' || c == d
    ensures !('A' <= d <= 'Z')
  {
    if 'A' <= c <= 'Z' || ('\U{00C0}' <= c <= '\U{00DE}' && c != '\U{00D7}') then
      (c as int + 32) as char
    else c
  }

  /** Case folding of a whole string, one character at a time. The result
      contains no capital letter and is its own folding. */
  function Lower(s: string): (r: string)
    ensures |r| == |s|
    ensures forall i :: 0 <= i < |s| ==> r[i] == LowerChar(s[i])
    ensures forall i :: 0 <= i < |r| ==> !('A' <= r[i] <= 'Z') && LowerChar(r[i]) == r[i]
  {
    seq(|s|, i requires 0 <= i < |s| => LowerChar(s[i]))
  }

  /** Folding twice is folding once. */
  lemma LowerIdempotent(s: string)
    ensures Lower(Lower(s)) == Lower(s)
  {
    var r := Lower(s);
    assert |Lower(r)| == |r|;
    forall i | 0 <= i < |r| ensures Lower(r)[i] == r[i] {
    }
  }

  /** `q` occurs in `s` starting at index `i`. */
  predicate OccursAt(s: string, q: string, i: int)
  {
    0 <= i && i + |q| <= |s| && s[i..i + |q|] == q
  }

  /** Substring test. */
  function Contains(s: string, q: string): (b: bool)
    ensures b <==> exists i :: OccursAt(s, q, i)
    decreases |s|
  {
    if |q| > |s| then
      assert forall i :: !OccursAt(s, q, i);
      false
    else if s[..|q|] == q then
      assert OccursAt(s, q, 0);
      true
    else
      ShiftOccurrences(s, q);
      Contains(s[1..], q)
  }

  /** An occurrence in `s` after index 0 is an occurrence in `s[1..]`, and
      back. */
  lemma ShiftOccurrences(s: string, q: string)
    requires s != [] && !OccursAt(s, q, 0)
    ensures (exists i :: OccursAt(s, q, i)) <==> (exists i :: OccursAt(s[1..], q, i))
  {
    if exists i :: OccursAt(s, q, i) {
      var i :| OccursAt(s, q, i);
      assert i >= 1;
      assert s[1..][i - 1..i - 1 + |q|] == s[i..i + |q|];
      assert OccursAt(s[1..], q, i - 1);
    }
    if exists i :: OccursAt(s[1..], q, i) {
      var i :| OccursAt(s[1..], q, i);
      assert s[1..][i..i + |q|] == s[i + 1..i + 1 + |q|];
      assert OccursAt(s, q, i + 1);
    }
  }

  /** `nom_medicament ILIKE '%q%'`, with `q` read literally. */
  predicate NameMatches(m: Medicament, q: string)
  {
    Contains(Lower(m.nom_medicament), Lower(q))
  }

  /** The catalogue entries whose name matches, in store order. */
  function Matches(cat: seq<Medicament>, q: string): (r: seq<Medicament>)
    ensures forall m :: m in r <==> m in cat && NameMatches(m, q)
    ensures IsSubsequence(r, cat)
  {
    if cat == [] then []
    else if NameMatches(cat[0], q) then
      var tail := Matches(cat[1..], q);
      assert ([cat[0]] + tail)[1..] == tail;
      assert cat == [cat[0]] + cat[1..];
      [cat[0]] + tail
    else
      var tail := Matches(cat[1..], q);
      SkipHead(tail, cat);
      assert cat == [cat[0]] + cat[1..];
      tail
  }

  /** `ILIKE` ignores case on both sides: a term matches a name exactly when
      its folding does, and a name is matched exactly as its folding is. */
  lemma NameMatchesIgnoresCase(m: Medicament, q: string)
    ensures NameMatches(m, q) == NameMatches(m, Lower(q))
    ensures NameMatches(m, q) == NameMatches(m.(nom_medicament := Lower(m.nom_medicament)), q)
  {
    LowerIdempotent(q);
    LowerIdempotent(m.nom_medicament);
  }

  /** The matching entries of a catalogue do not depend on the case of the
      term. */
  lemma {:induction false} MatchesIgnoresCase(cat: seq<Medicament>, q: string)
    ensures Matches(cat, q) == Matches(cat, Lower(q))
  {
    if cat != [] {
      NameMatchesIgnoresCase(cat[0], q);
      MatchesIgnoresCase(cat[1..], q);
    }
  }

  /** The search gives the same reply for a term and for its folding, so
      "DOLI" and "doli" find the same drugs. */
  lemma SearchIgnoresCase(store: Store, q: string, limit: nat)
    ensures SearchMedicaments(store, q, limit) == SearchMedicaments(store, Lower(q), limit)
  {
    MatchesIgnoresCase(store.medicaments, q);
  }

  /** `search_medicaments`: a term shorter than three characters is refused
      with status 422 before the store is read; otherwise the first `limit`
      catalogue entries whose name contains the term, ignoring case. */
  function SearchMedicaments(store: Store, q: string, limit: nat): (r: Reply<seq<Medicament>>)
    ensures Status(r) == 422 <==> |q| < SEARCH_MIN_LENGTH
    ensures Status(r) == 200 <==> |q| >= SEARCH_MIN_LENGTH
    ensures r.Ok? ==> |r.value| <= limit
    ensures r.Ok? ==> forall m :: m in r.value ==> NameMatches(m, q)
    ensures r.Ok? ==> IsSubsequence(r.value, store.medicaments)
    ensures r.Ok? && |r.value| < limit ==>
      forall m :: m in store.medicaments && NameMatches(m, q) ==> m in r.value
  {
    if |q| < SEARCH_MIN_LENGTH then Unprocessable("q")
    else
      var all := Matches(store.medicaments, q);
      var n := Min(limit, |all|);
      SubsequencePrefix(all, store.medicaments, n);
      assert all[..n] == all || |all[..n]| == limit;
      Ok(all[..n])
  }

  /** `get_medicament`: the entry whose primary key is `id`, or 404. */
  function GetMedicament(store: Store, id: int): (r: Reply<Medicament>)
    ensures Status(r) == 200 <==> exists i :: 0 <= i < |store.medicaments| && store.medicaments[i].id == id
    ensures Status(r) == 404 <==> forall i :: 0 <= i < |store.medicaments| ==> store.medicaments[i].id != id
    ensures r.Ok? ==> r.value in store.medicaments && r.value.id == id
    ensures r.NotFound? ==> r.detail == MEDICAMENT_NOT_FOUND
  {
    match FindFirst(store.medicaments, (m: Medicament) => m.id == id)
    case None => NotFound(MEDICAMENT_NOT_FOUND)
    case Some(k) => Ok(store.medicaments[k])
  }

  /** With unique primary keys, the lookup returns the one entry that has
      the key. */
  lemma GetMedicamentUnique(store: Store, i: nat)
    requires MedicamentKeysUnique(store.medicaments) && i < |store.medicaments|
    ensures GetMedicament(store, store.medicaments[i].id) == Ok(store.medicaments[i])
  {
    var id := store.medicaments[i].id;
    var k := FindFirst(store.medicaments, (m: Medicament) => m.id == id);
    assert k.Some?;
    assert store.medicaments[k.value].id == id;
    assert k.value == i;
  }
}
