/** The batch load of the aggregated CSV files (etl/load_to_db.py): the
    de-duplicated projections that become the dimension tables, the join
    that turns aggregated region rows into consumption facts, and the
    script's appends to the tables of a database whose constraints refuse
    a bad batch. */
module Etl {
  import opened Seqs
  import opened Models

  /** The year stamped on every loaded fact. */
  const ANNEE_CHARGEE: int := 2023

  /** A row of the aggregated region file, with the columns the script
      reads. Amounts are integer cents. */
  datatype AggRegionRow = AggRegionRow(code_region: int, nom_region: string, total_boites: int, total_remb: int)
  /** A row of the aggregated drug file, with the columns the script reads. */
  datatype AggMedicamentRow = AggMedicamentRow(code_cip: string, nom_medicament: string)
  /** A row of the aggregated ATC class file, with the columns the script reads. */
  datatype AggClasseRow = AggClasseRow(code_atc: string, classe_therapeutique: string)

  datatype RegionPair = RegionPair(code_region: int, nom_region: string)
  datatype MedicamentPair = MedicamentPair(code_cip: string, nom_medicament: string)
  datatype ClassePair = ClassePair(code_atc: string, nom_classe: string)

  // ---------------------------------------------------------------------------
  // Projections.

  function RegionPairOf(row: AggRegionRow): RegionPair { RegionPair(row.code_region, row.nom_region) }

  /** `agg_region[['code_region', 'nom_region']].drop_duplicates()`. */
  function RegionsToLoad(agg: seq<AggRegionRow>): (r: seq<RegionPair>)
    ensures forall p :: p in r <==> exists i :: 0 <= i < |agg| && RegionPairOf(agg[i]) == p
    ensures NoDuplicates(r)
    ensures IsSubsequence(r, seq(|agg|, i requires 0 <= i < |agg| => RegionPairOf(agg[i])))
    ensures var pairs := seq(|agg|, i requires 0 <= i < |agg| => RegionPairOf(agg[i]));
      forall i, j :: 0 <= i < j < |r| ==> r[i] in pairs && r[j] in pairs && FirstIndex(pairs, r[i]) < FirstIndex(pairs, r[j])
  {
    var pairs := seq(|agg|, i requires 0 <= i < |agg| => RegionPairOf(agg[i]));
    assert forall p :: p in pairs <==> exists i :: 0 <= i < |agg| && RegionPairOf(agg[i]) == p by {
      forall p | p in pairs ensures exists i :: 0 <= i < |agg| && RegionPairOf(agg[i]) == p {
        var i :| 0 <= i < |pairs| && pairs[i] == p;
      }
      forall i | 0 <= i < |agg| ensures RegionPairOf(agg[i]) in pairs {
        assert pairs[i] == RegionPairOf(agg[i]);
      }
    }
    Distinct(pairs)
  }

  function MedicamentPairOf(row: AggMedicamentRow): MedicamentPair { MedicamentPair(row.code_cip, row.nom_medicament) }

  /** `agg_medic[['code_cip', 'nom_medicament']].drop_duplicates()`. */
  function MedicamentsToLoad(agg: seq<AggMedicamentRow>): (r: seq<MedicamentPair>)
    ensures forall p :: p in r <==> exists i :: 0 <= i < |agg| && MedicamentPairOf(agg[i]) == p
    ensures NoDuplicates(r)
    ensures IsSubsequence(r, seq(|agg|, i requires 0 <= i < |agg| => MedicamentPairOf(agg[i])))
    ensures var pairs := seq(|agg|, i requires 0 <= i < |agg| => MedicamentPairOf(agg[i]));
      forall i, j :: 0 <= i < j < |r| ==> r[i] in pairs && r[j] in pairs && FirstIndex(pairs, r[i]) < FirstIndex(pairs, r[j])
  {
    var pairs := seq(|agg|, i requires 0 <= i < |agg| => MedicamentPairOf(agg[i]));
    assert forall p :: p in pairs <==> exists i :: 0 <= i < |agg| && MedicamentPairOf(agg[i]) == p by {
      forall p | p in pairs ensures exists i :: 0 <= i < |agg| && MedicamentPairOf(agg[i]) == p {
        var i :| 0 <= i < |pairs| && pairs[i] == p;
      }
      forall i | 0 <= i < |agg| ensures MedicamentPairOf(agg[i]) in pairs {
        assert pairs[i] == MedicamentPairOf(agg[i]);
      }
    }
    Distinct(pairs)
  }

  /** The class projection, with `classe_therapeutique` renamed `nom_classe`. */
  function ClassePairOf(row: AggClasseRow): ClassePair { ClassePair(row.code_atc, row.classe_therapeutique) }

  /** `agg_atc[['code_atc', 'classe_therapeutique']].drop_duplicates()` and
      the column renaming. */
  function ClassesToLoad(agg: seq<AggClasseRow>): (r: seq<ClassePair>)
    ensures forall p :: p in r <==> exists i :: 0 <= i < |agg| && ClassePairOf(agg[i]) == p
    ensures NoDuplicates(r)
    ensures IsSubsequence(r, seq(|agg|, i requires 0 <= i < |agg| => ClassePairOf(agg[i])))
    ensures var pairs := seq(|agg|, i requires 0 <= i < |agg| => ClassePairOf(agg[i]));
      forall i, j :: 0 <= i < j < |r| ==> r[i] in pairs && r[j] in pairs && FirstIndex(pairs, r[i]) < FirstIndex(pairs, r[j])
  {
    var pairs := seq(|agg|, i requires 0 <= i < |agg| => ClassePairOf(agg[i]));
    assert forall p :: p in pairs <==> exists i :: 0 <= i < |agg| && ClassePairOf(agg[i]) == p by {
      forall p | p in pairs ensures exists i :: 0 <= i < |agg| && ClassePairOf(agg[i]) == p {
        var i :| 0 <= i < |pairs| && pairs[i] == p;
      }
      forall i | 0 <= i < |agg| ensures ClassePairOf(agg[i]) in pairs {
        assert pairs[i] == ClassePairOf(agg[i]);
      }
    }
    Distinct(pairs)
  }

  // ---------------------------------------------------------------------------
  // The consumption facts.

  /** A row of `df_consommation`, before the table numbers it. */
  datatype FactRow = FactRow(region_id: Option<int>, medicament_id: Option<int>, annee: int, total_boites: int, total_remb: int)

  /** The fact built from an aggregated row joined to the region `id`: no
      drug (a region-level aggregate), the load year, the row's measures. */
  function FactOf(row: AggRegionRow, id: int): FactRow
  {
    FactRow(Some(id), None, ANNEE_CHARGEE, row.total_boites, row.total_remb)
  }

  /** The ids of the database regions carrying `code`, in table order. */
  function IdsWithCode(db: seq<Region>, code: int): (ids: seq<int>)
    ensures forall id :: id in ids <==> exists j :: 0 <= j < |db| && db[j].code_region == code && db[j].id == id
  {
    if db == [] then []
    else
      var rest := IdsWithCode(db[1..], code);
      assert forall j :: 0 < j < |db| ==> db[j] == db[1..][j - 1];
      if db[0].code_region == code then [db[0].id] + rest else rest
  }

  /** `agg_region.merge(regions_db, on='code_region')` followed by the
      `df_consommation` frame: for each aggregated row, in file order, one
      fact per database region with the same code. */
  function ConsommationRows(agg: seq<AggRegionRow>, db: seq<Region>): (facts: seq<FactRow>)
    ensures forall f :: f in facts ==>
      exists i, j :: 0 <= i < |agg| && 0 <= j < |db| && agg[i].code_region == db[j].code_region && f == FactOf(agg[i], db[j].id)
  {
    if agg == [] then []
    else
      var ids := IdsWithCode(db, agg[0].code_region);
      var head := seq(|ids|, k requires 0 <= k < |ids| => FactOf(agg[0], ids[k]));
      var tail := ConsommationRows(agg[1..], db);
      assert forall f :: f in tail ==>
        exists i, j :: 0 <= i < |agg| && 0 <= j < |db| && agg[i].code_region == db[j].code_region && f == FactOf(agg[i], db[j].id) by {
        forall f | f in tail ensures
          exists i, j :: 0 <= i < |agg| && 0 <= j < |db| && agg[i].code_region == db[j].code_region && f == FactOf(agg[i], db[j].id) {
          var i, j :| 0 <= i < |agg[1..]| && 0 <= j < |db| && agg[1..][i].code_region == db[j].code_region && f == FactOf(agg[1..][i], db[j].id);
          assert agg[1..][i] == agg[i + 1];
        }
      }
      assert forall k :: 0 <= k < |head| ==> head[k] == FactOf(agg[0], ids[k]);
      assert forall f :: f in head ==>
        exists j :: 0 <= j < |db| && agg[0].code_region == db[j].code_region && f == FactOf(agg[0], db[j].id) by {
        forall f | f in head ensures exists j :: 0 <= j < |db| && agg[0].code_region == db[j].code_region && f == FactOf(agg[0], db[j].id) {
          var k :| 0 <= k < |head| && head[k] == f;
          assert ids[k] in ids;
        }
      }
      head + tail
  }

  /** Every fact is a region-level aggregate of the load year that refers
      to a database region. */
  lemma ConsommationRowsShape(agg: seq<AggRegionRow>, db: seq<Region>)
    ensures forall f :: f in ConsommationRows(agg, db) ==>
      && f.medicament_id.None?
      && f.annee == ANNEE_CHARGEE
      && f.region_id.Some? && f.region_id.value in RegionIds(db)
  {
    forall f | f in ConsommationRows(agg, db)
      ensures f.medicament_id.None? && f.annee == ANNEE_CHARGEE && f.region_id.Some? && f.region_id.value in RegionIds(db)
    {
      var i, j :| 0 <= i < |agg| && 0 <= j < |db| && agg[i].code_region == db[j].code_region && f == FactOf(agg[i], db[j].id);
      assert db[j] in db;
    }
  }

  /** Every aggregated row whose code is in the database gets its fact. */
  lemma {:induction false} ConsommationRowsComplete(agg: seq<AggRegionRow>, db: seq<Region>, i: nat, j: nat)
    requires i < |agg| && j < |db| && agg[i].code_region == db[j].code_region
    ensures FactOf(agg[i], db[j].id) in ConsommationRows(agg, db)
  {
    var ids := IdsWithCode(db, agg[0].code_region);
    var head := seq(|ids|, k requires 0 <= k < |ids| => FactOf(agg[0], ids[k]));
    var tail := ConsommationRows(agg[1..], db);
    assert ConsommationRows(agg, db) == head + tail;
    if i == 0 {
      assert db[j].id in ids;
      var k :| 0 <= k < |ids| && ids[k] == db[j].id;
      assert head[k] == FactOf(agg[0], db[j].id);
    } else {
      assert agg[1..][i - 1] == agg[i];
      ConsommationRowsComplete(agg[1..], db, i - 1, j);
    }
  }

  function CodeIn(db: seq<Region>): AggRegionRow -> bool
  {
    (row: AggRegionRow) => exists j :: 0 <= j < |db| && db[j].code_region == row.code_region
  }

  /** At most one region per code: the ids found for a code number at most one. */
  lemma {:induction false} IdsWithCodeUnique(db: seq<Region>, code: int)
    requires RegionKeysUnique(db)
    ensures |IdsWithCode(db, code)| == (if exists j :: 0 <= j < |db| && db[j].code_region == code then 1 else 0)
  {
    if db != [] {
      assert RegionKeysUnique(db[1..]) by {
        forall i, j | 0 <= i < j < |db[1..]|
          ensures db[1..][i].id != db[1..][j].id && db[1..][i].code_region != db[1..][j].code_region
        {
          assert db[1..][i] == db[i + 1] && db[1..][j] == db[j + 1];
        }
      }
      IdsWithCodeUnique(db[1..], code);
      assert forall j :: 0 < j < |db| ==> db[j] == db[1..][j - 1];
      if db[0].code_region == code {
        assert forall j :: 0 < j < |db| ==> db[j].code_region != code;
      }
    }
  }

  /** With unique codes in the database, the number of facts is the number
      of aggregated rows whose code the database knows. */
  lemma {:induction false} ConsommationRowsCount(agg: seq<AggRegionRow>, db: seq<Region>)
    requires RegionKeysUnique(db)
    ensures |ConsommationRows(agg, db)| == Count(agg, CodeIn(db))
  {
    if agg != [] {
      IdsWithCodeUnique(db, agg[0].code_region);
      ConsommationRowsCount(agg[1..], db);
    }
  }

  // ---------------------------------------------------------------------------
  // The database the script appends to.

  function NumberRegions(rows: seq<RegionPair>, first: int): (r: seq<Region>)
    ensures |r| == |rows|
    ensures forall i :: 0 <= i < |rows| ==> r[i] == Region(first + i, rows[i].code_region, rows[i].nom_region)
  {
    seq(|rows|, i requires 0 <= i < |rows| => Region(first + i, rows[i].code_region, rows[i].nom_region))
  }

  function NumberMedicaments(rows: seq<MedicamentPair>, first: int): (r: seq<Medicament>)
    ensures |r| == |rows|
    ensures forall i :: 0 <= i < |rows| ==> r[i] == Medicament(first + i, rows[i].code_cip, rows[i].nom_medicament)
  {
    seq(|rows|, i requires 0 <= i < |rows| => Medicament(first + i, rows[i].code_cip, rows[i].nom_medicament))
  }

  function NumberClasses(rows: seq<ClassePair>, first: int): (r: seq<ClasseTherapeutique>)
    ensures |r| == |rows|
    ensures forall i :: 0 <= i < |rows| ==> r[i] == ClasseTherapeutique(first + i, rows[i].code_atc, rows[i].nom_classe)
  {
    seq(|rows|, i requires 0 <= i < |rows| => ClasseTherapeutique(first + i, rows[i].code_atc, rows[i].nom_classe))
  }

  function NumberFacts(rows: seq<FactRow>, first: int): (r: seq<Consommation>)
    ensures |r| == |rows|
    ensures forall i :: 0 <= i < |rows| ==>
      r[i] == Consommation(first + i, rows[i].region_id, rows[i].medicament_id, rows[i].annee, rows[i].total_boites, rows[i].total_remb)
  {
    seq(|rows|, i requires 0 <= i < |rows| =>
      Consommation(first + i, rows[i].region_id, rows[i].medicament_id, rows[i].annee, rows[i].total_boites, rows[i].total_remb))
  }

  /** The ids a batch of `n` rows takes from a sequence at `next` fit the
      INTEGER key column. */
  predicate IdsFit(next: int, n: nat) { next + n <= INTEGER_BOUND }

  /** What the `regions` constraints accept: new codes distinct from each
      other and from the stored ones, and columns that fit. */
  predicate RegionsAccepted(stored: seq<Region>, rows: seq<RegionPair>, next: int)
  {
    && IdsFit(next, |rows|)
    && (forall i, j :: 0 <= i < j < |rows| ==> rows[i].code_region != rows[j].code_region)
    && (forall i, k :: 0 <= i < |rows| && 0 <= k < |stored| ==> rows[i].code_region != stored[k].code_region)
    && (forall i :: 0 <= i < |rows| ==> IsInteger(rows[i].code_region) && |rows[i].nom_region| <= NOM_REGION_MAX)
  }

  predicate MedicamentsAccepted(stored: seq<Medicament>, rows: seq<MedicamentPair>, next: int)
  {
    && IdsFit(next, |rows|)
    && (forall i, j :: 0 <= i < j < |rows| ==> rows[i].code_cip != rows[j].code_cip)
    && (forall i, k :: 0 <= i < |rows| && 0 <= k < |stored| ==> rows[i].code_cip != stored[k].code_cip)
    && (forall i :: 0 <= i < |rows| ==> |rows[i].code_cip| <= CODE_CIP_MAX)
  }

  predicate ClassesAccepted(stored: seq<ClasseTherapeutique>, rows: seq<ClassePair>, next: int)
  {
    && IdsFit(next, |rows|)
    && (forall i, j :: 0 <= i < j < |rows| ==> rows[i].code_atc != rows[j].code_atc)
    && (forall i, k :: 0 <= i < |rows| && 0 <= k < |stored| ==> rows[i].code_atc != stored[k].code_atc)
    && (forall i :: 0 <= i < |rows| ==> |rows[i].code_atc| <= CODE_ATC_MAX)
  }

  /** What the `consommation` constraints accept: columns that fit and
      references to existing rows. */
  predicate FactsAccepted(s: Store, rows: seq<FactRow>, next: int)
  {
    && IdsFit(next, |rows|)
    && forall i :: 0 <= i < |rows| ==>
      && IsInteger(rows[i].annee) && IsBigInt(rows[i].total_boites) && IsNumeric15_2(rows[i].total_remb)
      && (rows[i].region_id.Some? ==> rows[i].region_id.value in RegionIds(s.regions))
      && (rows[i].medicament_id.Some? ==> rows[i].medicament_id.value in MedicamentIds(s.medicaments))
  }

  /** The store is well formed and every id sequence is past the ids it
      has handed out. */
  predicate Numbered(s: Store, nextRegion: int, nextMedicament: int, nextClasse: int, nextFact: int)
  {
    && (forall k :: 0 <= k < |s.regions| ==> 1 <= s.regions[k].id < nextRegion)
    && (forall k :: 0 <= k < |s.medicaments| ==> 1 <= s.medicaments[k].id < nextMedicament)
    && (forall k :: 0 <= k < |s.classes| ==> 1 <= s.classes[k].id < nextClasse)
    && (forall k :: 0 <= k < |s.consommations| ==> 1 <= s.consommations[k].id < nextFact)
    && 1 <= nextRegion && 1 <= nextMedicament && 1 <= nextClasse && 1 <= nextFact
  }

  lemma InsertRegionsValid(s: Store, rows: seq<RegionPair>, next: int, nm: int, nc: int, nf: int)
    requires ValidStore(s) && Numbered(s, next, nm, nc, nf)
    requires RegionsAccepted(s.regions, rows, next)
    ensures var t := s.(regions := s.regions + NumberRegions(rows, next));
      ValidStore(t) && Numbered(t, next + |rows|, nm, nc, nf)
  {
    var added := NumberRegions(rows, next);
    var all := s.regions + added;
    var t := s.(regions := all);
    forall i, j | 0 <= i < j < |all| ensures all[i].id != all[j].id && all[i].code_region != all[j].code_region {
      if j >= |s.regions| && i < |s.regions| {
        assert all[j] == added[j - |s.regions|];
      } else if i >= |s.regions| {
        assert all[i] == added[i - |s.regions|] && all[j] == added[j - |s.regions|];
      }
    }
    forall k | 0 <= k < |all| ensures ValidRegion(all[k]) {
      if k >= |s.regions| {
        assert all[k] == added[k - |s.regions|];
      }
    }
    assert RegionIds(s.regions) <= RegionIds(all);
    forall k | 0 <= k < |all| ensures 1 <= all[k].id < next + |rows| {
      if k >= |s.regions| {
        assert all[k] == added[k - |s.regions|];
      }
    }
  }

  lemma InsertMedicamentsValid(s: Store, rows: seq<MedicamentPair>, nr: int, next: int, nc: int, nf: int)
    requires ValidStore(s) && Numbered(s, nr, next, nc, nf)
    requires MedicamentsAccepted(s.medicaments, rows, next)
    ensures var t := s.(medicaments := s.medicaments + NumberMedicaments(rows, next));
      ValidStore(t) && Numbered(t, nr, next + |rows|, nc, nf)
  {
    var added := NumberMedicaments(rows, next);
    var all := s.medicaments + added;
    forall i, j | 0 <= i < j < |all| ensures all[i].id != all[j].id && all[i].code_cip != all[j].code_cip {
      if j >= |s.medicaments| && i < |s.medicaments| {
        assert all[j] == added[j - |s.medicaments|];
      } else if i >= |s.medicaments| {
        assert all[i] == added[i - |s.medicaments|] && all[j] == added[j - |s.medicaments|];
      }
    }
    forall k | 0 <= k < |all| ensures ValidMedicament(all[k]) && 1 <= all[k].id < next + |rows| {
      if k >= |s.medicaments| {
        assert all[k] == added[k - |s.medicaments|];
      }
    }
    assert MedicamentIds(s.medicaments) <= MedicamentIds(all);
  }

  lemma InsertClassesValid(s: Store, rows: seq<ClassePair>, nr: int, nm: int, next: int, nf: int)
    requires ValidStore(s) && Numbered(s, nr, nm, next, nf)
    requires ClassesAccepted(s.classes, rows, next)
    ensures var t := s.(classes := s.classes + NumberClasses(rows, next));
      ValidStore(t) && Numbered(t, nr, nm, next + |rows|, nf)
  {
    var added := NumberClasses(rows, next);
    var all := s.classes + added;
    forall i, j | 0 <= i < j < |all| ensures all[i].id != all[j].id && all[i].code_atc != all[j].code_atc {
      if j >= |s.classes| && i < |s.classes| {
        assert all[j] == added[j - |s.classes|];
      } else if i >= |s.classes| {
        assert all[i] == added[i - |s.classes|] && all[j] == added[j - |s.classes|];
      }
    }
    forall k | 0 <= k < |all| ensures ValidClasse(all[k]) && 1 <= all[k].id < next + |rows| {
      if k >= |s.classes| {
        assert all[k] == added[k - |s.classes|];
      }
    }
  }

  lemma InsertFactsValid(s: Store, rows: seq<FactRow>, nr: int, nm: int, nc: int, next: int)
    requires ValidStore(s) && Numbered(s, nr, nm, nc, next)
    requires FactsAccepted(s, rows, next)
    ensures var t := s.(consommations := s.consommations + NumberFacts(rows, next));
      ValidStore(t) && Numbered(t, nr, nm, nc, next + |rows|)
  {
    var added := NumberFacts(rows, next);
    var all := s.consommations + added;
    forall i, j | 0 <= i < j < |all| ensures all[i].id != all[j].id {
      if j >= |s.consommations| && i < |s.consommations| {
        assert all[j] == added[j - |s.consommations|];
      } else if i >= |s.consommations| {
        assert all[i] == added[i - |s.consommations|] && all[j] == added[j - |s.consommations|];
      }
    }
    forall k | 0 <= k < |all|
      ensures ValidConsommation(all[k], RegionIds(s.regions), MedicamentIds(s.medicaments)) && 1 <= all[k].id < next + |rows|
    {
      if k >= |s.consommations| {
        assert all[k] == added[k - |s.consommations|];
      }
    }
  }

  /** The four tables and their id sequences. Every `to_sql(...,
      if_exists='append')` call is one insert of a whole batch, which the
      table's constraints accept or refuse as a whole. */
  class Database {
    var regions: seq<Region>
    var medicaments: seq<Medicament>
    var classes: seq<ClasseTherapeutique>
    var consommations: seq<Consommation>
    var nextRegionId: int
    var nextMedicamentId: int
    var nextClasseId: int
    var nextConsommationId: int

    function Snapshot(): Store
      reads this
    {
      Store(regions, medicaments, classes, consommations)
    }

    predicate Valid()
      reads this
    {
      ValidStore(Snapshot()) && Numbered(Snapshot(), nextRegionId, nextMedicamentId, nextClasseId, nextConsommationId)
    }

    /** An empty database whose sequences start at 1. */
    constructor ()
      ensures Valid()
      ensures regions == [] && medicaments == [] && classes == [] && consommations == []
      ensures nextRegionId == 1 && nextMedicamentId == 1 && nextClasseId == 1 && nextConsommationId == 1
    {
      regions := [];
      medicaments := [];
      classes := [];
      consommations := [];
      nextRegionId := 1;
      nextMedicamentId := 1;
      nextClasseId := 1;
      nextConsommationId := 1;
    }

    /** `df_regions.to_sql('regions', ...)`. */
    method InsertRegions(rows: seq<RegionPair>) returns (ok: bool)
      requires Valid()
      modifies this
      ensures Valid()
      ensures ok <==> RegionsAccepted(old(regions), rows, old(nextRegionId))
      ensures ok ==> regions == old(regions) + NumberRegions(rows, old(nextRegionId))
      ensures ok ==> nextRegionId == old(nextRegionId) + |rows|
      ensures !ok ==> regions == old(regions) && nextRegionId == old(nextRegionId)
      ensures medicaments == old(medicaments) && classes == old(classes) && consommations == old(consommations)
      ensures nextMedicamentId == old(nextMedicamentId) && nextClasseId == old(nextClasseId)
      ensures nextConsommationId == old(nextConsommationId)
    {
      ok := RegionsAccepted(regions, rows, nextRegionId);
      if ok {
        InsertRegionsValid(Snapshot(), rows, nextRegionId, nextMedicamentId, nextClasseId, nextConsommationId);
        regions := regions + NumberRegions(rows, nextRegionId);
        nextRegionId := nextRegionId + |rows|;
      }
    }

    /** `df_medicaments.to_sql('medicaments', ...)`. */
    method InsertMedicaments(rows: seq<MedicamentPair>) returns (ok: bool)
      requires Valid()
      modifies this
      ensures Valid()
      ensures ok <==> MedicamentsAccepted(old(medicaments), rows, old(nextMedicamentId))
      ensures ok ==> medicaments == old(medicaments) + NumberMedicaments(rows, old(nextMedicamentId))
      ensures ok ==> nextMedicamentId == old(nextMedicamentId) + |rows|
      ensures !ok ==> medicaments == old(medicaments) && nextMedicamentId == old(nextMedicamentId)
      ensures regions == old(regions) && classes == old(classes) && consommations == old(consommations)
      ensures nextRegionId == old(nextRegionId) && nextClasseId == old(nextClasseId)
      ensures nextConsommationId == old(nextConsommationId)
    {
      ok := MedicamentsAccepted(medicaments, rows, nextMedicamentId);
      if ok {
        InsertMedicamentsValid(Snapshot(), rows, nextRegionId, nextMedicamentId, nextClasseId, nextConsommationId);
        medicaments := medicaments + NumberMedicaments(rows, nextMedicamentId);
        nextMedicamentId := nextMedicamentId + |rows|;
      }
    }

    /** `df_classes.to_sql('classes_therapeutiques', ...)`. */
    method InsertClasses(rows: seq<ClassePair>) returns (ok: bool)
      requires Valid()
      modifies this
      ensures Valid()
      ensures ok <==> ClassesAccepted(old(classes), rows, old(nextClasseId))
      ensures ok ==> classes == old(classes) + NumberClasses(rows, old(nextClasseId))
      ensures ok ==> nextClasseId == old(nextClasseId) + |rows|
      ensures !ok ==> classes == old(classes) && nextClasseId == old(nextClasseId)
      ensures regions == old(regions) && medicaments == old(medicaments) && consommations == old(consommations)
      ensures nextRegionId == old(nextRegionId) && nextMedicamentId == old(nextMedicamentId)
      ensures nextConsommationId == old(nextConsommationId)
    {
      ok := ClassesAccepted(classes, rows, nextClasseId);
      if ok {
        InsertClassesValid(Snapshot(), rows, nextRegionId, nextMedicamentId, nextClasseId, nextConsommationId);
        classes := classes + NumberClasses(rows, nextClasseId);
        nextClasseId := nextClasseId + |rows|;
      }
    }

    /** `df_consommation.to_sql('consommation', ...)`. */
    method InsertFacts(rows: seq<FactRow>) returns (ok: bool)
      requires Valid()
      modifies this
      ensures Valid()
      ensures ok <==> FactsAccepted(old(Snapshot()), rows, old(nextConsommationId))
      ensures ok ==> consommations == old(consommations) + NumberFacts(rows, old(nextConsommationId))
      ensures ok ==> nextConsommationId == old(nextConsommationId) + |rows|
      ensures !ok ==> consommations == old(consommations) && nextConsommationId == old(nextConsommationId)
      ensures regions == old(regions) && medicaments == old(medicaments) && classes == old(classes)
      ensures nextRegionId == old(nextRegionId) && nextMedicamentId == old(nextMedicamentId)
      ensures nextClasseId == old(nextClasseId)
    {
      ok := FactsAccepted(Snapshot(), rows, nextConsommationId);
      if ok {
        InsertFactsValid(Snapshot(), rows, nextRegionId, nextMedicamentId, nextClasseId, nextConsommationId);
        consommations := consommations + NumberFacts(rows, nextConsommationId);
        nextConsommationId := nextConsommationId + |rows|;
      }
    }
  }

  /** The regions, drugs and classes loads in order; a refused batch ends
      the script there. The facts table is not touched. */
  method LoadDimensions(db: Database, aggRegion: seq<AggRegionRow>, aggMedic: seq<AggMedicamentRow>, aggAtc: seq<AggClasseRow>)
    returns (ok: bool)
    requires db.Valid()
    modifies db
    ensures db.Valid()
    ensures ok <==>
      && RegionsAccepted(old(db.regions), RegionsToLoad(aggRegion), old(db.nextRegionId))
      && MedicamentsAccepted(old(db.medicaments), MedicamentsToLoad(aggMedic), old(db.nextMedicamentId))
      && ClassesAccepted(old(db.classes), ClassesToLoad(aggAtc), old(db.nextClasseId))
    ensures var accepted := RegionsAccepted(old(db.regions), RegionsToLoad(aggRegion), old(db.nextRegionId));
      && db.regions == (if accepted then old(db.regions) + NumberRegions(RegionsToLoad(aggRegion), old(db.nextRegionId)) else old(db.regions))
      && db.nextRegionId == (if accepted then old(db.nextRegionId) + |RegionsToLoad(aggRegion)| else old(db.nextRegionId))
    ensures var accepted :=
        && RegionsAccepted(old(db.regions), RegionsToLoad(aggRegion), old(db.nextRegionId))
        && MedicamentsAccepted(old(db.medicaments), MedicamentsToLoad(aggMedic), old(db.nextMedicamentId));
      && db.medicaments == (if accepted then old(db.medicaments) + NumberMedicaments(MedicamentsToLoad(aggMedic), old(db.nextMedicamentId)) else old(db.medicaments))
      && db.nextMedicamentId == (if accepted then old(db.nextMedicamentId) + |MedicamentsToLoad(aggMedic)| else old(db.nextMedicamentId))
    ensures
      && db.classes == (if ok then old(db.classes) + NumberClasses(ClassesToLoad(aggAtc), old(db.nextClasseId)) else old(db.classes))
      && db.nextClasseId == (if ok then old(db.nextClasseId) + |ClassesToLoad(aggAtc)| else old(db.nextClasseId))
    ensures db.consommations == old(db.consommations) && db.nextConsommationId == old(db.nextConsommationId)
  {
    ok := db.InsertRegions(RegionsToLoad(aggRegion));
    if !ok { return; }
    ok := db.InsertMedicaments(MedicamentsToLoad(aggMedic));
    if !ok { return; }
    ok := db.InsertClasses(ClassesToLoad(aggAtc));
  }

  /** The four loads in order. An insert the database refuses raises and
      ends the script, so the later loads do not run; the batches already
      appended stay. The load succeeds exactly when each of the four batches
      is accepted by the tables as the previous loads left them; each table
      and its id counter end as those loads leave them. */
  method Load(db: Database, aggRegion: seq<AggRegionRow>, aggMedic: seq<AggMedicamentRow>, aggAtc: seq<AggClasseRow>)
    returns (ok: bool)
    requires db.Valid()
    modifies db
    ensures db.Valid()
    ensures var regions := old(db.regions) + NumberRegions(RegionsToLoad(aggRegion), old(db.nextRegionId));
      var medicaments := old(db.medicaments) + NumberMedicaments(MedicamentsToLoad(aggMedic), old(db.nextMedicamentId));
      var classes := old(db.classes) + NumberClasses(ClassesToLoad(aggAtc), old(db.nextClasseId));
      ok <==>
        && RegionsAccepted(old(db.regions), RegionsToLoad(aggRegion), old(db.nextRegionId))
        && MedicamentsAccepted(old(db.medicaments), MedicamentsToLoad(aggMedic), old(db.nextMedicamentId))
        && ClassesAccepted(old(db.classes), ClassesToLoad(aggAtc), old(db.nextClasseId))
        && FactsAccepted(Store(regions, medicaments, classes, old(db.consommations)),
                         ConsommationRows(aggRegion, regions), old(db.nextConsommationId))
    ensures var accepted := RegionsAccepted(old(db.regions), RegionsToLoad(aggRegion), old(db.nextRegionId));
      && db.regions == (if accepted then old(db.regions) + NumberRegions(RegionsToLoad(aggRegion), old(db.nextRegionId)) else old(db.regions))
      && db.nextRegionId == (if accepted then old(db.nextRegionId) + |RegionsToLoad(aggRegion)| else old(db.nextRegionId))
    ensures var accepted :=
        && RegionsAccepted(old(db.regions), RegionsToLoad(aggRegion), old(db.nextRegionId))
        && MedicamentsAccepted(old(db.medicaments), MedicamentsToLoad(aggMedic), old(db.nextMedicamentId));
      && db.medicaments == (if accepted then old(db.medicaments) + NumberMedicaments(MedicamentsToLoad(aggMedic), old(db.nextMedicamentId)) else old(db.medicaments))
      && db.nextMedicamentId == (if accepted then old(db.nextMedicamentId) + |MedicamentsToLoad(aggMedic)| else old(db.nextMedicamentId))
    ensures var accepted :=
        && RegionsAccepted(old(db.regions), RegionsToLoad(aggRegion), old(db.nextRegionId))
        && MedicamentsAccepted(old(db.medicaments), MedicamentsToLoad(aggMedic), old(db.nextMedicamentId))
        && ClassesAccepted(old(db.classes), ClassesToLoad(aggAtc), old(db.nextClasseId));
      && db.classes == (if accepted then old(db.classes) + NumberClasses(ClassesToLoad(aggAtc), old(db.nextClasseId)) else old(db.classes))
      && db.nextClasseId == (if accepted then old(db.nextClasseId) + |ClassesToLoad(aggAtc)| else old(db.nextClasseId))
    ensures ok ==>
      && db.consommations == old(db.consommations) + NumberFacts(ConsommationRows(aggRegion, db.regions), old(db.nextConsommationId))
      && db.nextConsommationId == old(db.nextConsommationId) + |ConsommationRows(aggRegion, db.regions)|
    ensures !ok ==> db.consommations == old(db.consommations) && db.nextConsommationId == old(db.nextConsommationId)
  {
    ok := LoadDimensions(db, aggRegion, aggMedic, aggAtc);
    if !ok { return; }
    // `SELECT id, code_region FROM regions`: the whole table, earlier rows included.
    var regionsDb := db.regions;
    ok := db.InsertFacts(ConsommationRows(aggRegion, regionsDb));
  }

  /** Loading into an empty database, every aggregated row gets exactly one
      fact: its code is among the regions just loaded, and only once. */
  lemma FreshLoadFactCount(aggRegion: seq<AggRegionRow>)
    requires RegionsAccepted([], RegionsToLoad(aggRegion), 1)
    ensures |ConsommationRows(aggRegion, NumberRegions(RegionsToLoad(aggRegion), 1))| == |aggRegion|
  {
    var pairs := RegionsToLoad(aggRegion);
    var db := NumberRegions(pairs, 1);
    assert RegionKeysUnique(db);
    forall i | 0 <= i < |aggRegion| ensures CodeIn(db)(aggRegion[i]) {
      assert RegionPairOf(aggRegion[i]) in pairs;
      var k :| 0 <= k < |pairs| && pairs[k] == RegionPairOf(aggRegion[i]);
      assert db[k].code_region == aggRegion[i].code_region;
    }
    ConsommationRowsCount(aggRegion, db);
    CountPrefixAll(aggRegion, |aggRegion|, CodeIn(db));
    assert aggRegion[..|aggRegion|] == aggRegion;
  }
}
