/** The four tables of the relational store (backend/app/models.py) and the
    column and key constraints the schema declares, gathered in `ValidStore`.
    `created_at` timestamps are not modelled. */
module Models {
  import opened Seqs

  /** A row of `regions`. */
  datatype Region = Region(id: int, code_region: int, nom_region: string)

  /** A row of `medicaments`. */
  datatype Medicament = Medicament(id: int, code_cip: string, nom_medicament: string)

  /** A row of `classes_therapeutiques`. */
  datatype ClasseTherapeutique = ClasseTherapeutique(id: int, code_atc: string, nom_classe: string)

  /** A row of `consommation`. `total_remb` is a NUMERIC(15, 2) amount held as
      integer cents. A `None` medicament marks a region-level aggregate. */
  datatype Consommation = Consommation(
    id: int,
    region_id: Option<int>,
    medicament_id: Option<int>,
    annee: int,
    total_boites: int,
    total_remb: int)

  /** A snapshot of the whole store; every table in row order. */
  datatype Store = Store(
    regions: seq<Region>,
    medicaments: seq<Medicament>,
    classes: seq<ClasseTherapeutique>,
    consommations: seq<Consommation>)

  const INTEGER_BOUND: int := 0x8000_0000
  const BIGINT_BOUND: int := 0x8000_0000_0000_0000
  /** NUMERIC(15, 2): at most 13 digits before the point, so fewer than 10^15 cents. */
  const NUMERIC_15_2_BOUND: int := 1_000_000_000_000_000

  const NOM_REGION_MAX: nat := 100
  const CODE_CIP_MAX: nat := 20
  const CODE_ATC_MAX: nat := 10

  predicate IsInteger(x: int) { -INTEGER_BOUND <= x < INTEGER_BOUND }
  predicate IsBigInt(x: int) { -BIGINT_BOUND <= x < BIGINT_BOUND }
  predicate IsNumeric15_2(cents: int) { -NUMERIC_15_2_BOUND < cents < NUMERIC_15_2_BOUND }

  function RegionIds(regions: seq<Region>): set<int>
  {
    set r | r in regions :: r.id
  }

  function MedicamentIds(medicaments: seq<Medicament>): set<int>
  {
    set m | m in medicaments :: m.id
  }

  predicate RegionKeysUnique(regions: seq<Region>)
  {
    forall i, j :: 0 <= i < j < |regions| ==>
      regions[i].id != regions[j].id && regions[i].code_region != regions[j].code_region
  }

  predicate MedicamentKeysUnique(medicaments: seq<Medicament>)
  {
    forall i, j :: 0 <= i < j < |medicaments| ==>
      medicaments[i].id != medicaments[j].id && medicaments[i].code_cip != medicaments[j].code_cip
  }

  predicate ClasseKeysUnique(classes: seq<ClasseTherapeutique>)
  {
    forall i, j :: 0 <= i < j < |classes| ==>
      classes[i].id != classes[j].id && classes[i].code_atc != classes[j].code_atc
  }

  predicate ConsommationIdsUnique(facts: seq<Consommation>)
  {
    forall i, j :: 0 <= i < j < |facts| ==> facts[i].id != facts[j].id
  }

  predicate ValidRegion(r: Region)
  {
    IsInteger(r.id) && IsInteger(r.code_region) && |r.nom_region| <= NOM_REGION_MAX
  }

  predicate ValidMedicament(m: Medicament)
  {
    IsInteger(m.id) && |m.code_cip| <= CODE_CIP_MAX
  }

  predicate ValidClasse(c: ClasseTherapeutique)
  {
    IsInteger(c.id) && |c.code_atc| <= CODE_ATC_MAX
  }

  /** Column types, plus the two nullable foreign keys: an absent reference is
      allowed, a present one must name an existing row. */
  predicate ValidConsommation(f: Consommation, regionIds: set<int>, medicamentIds: set<int>)
  {
    && IsInteger(f.id) && IsInteger(f.annee)
    && IsBigInt(f.total_boites) && IsNumeric15_2(f.total_remb)
    && (f.region_id.Some? ==> f.region_id.value in regionIds)
    && (f.medicament_id.Some? ==> f.medicament_id.value in medicamentIds)
  }

  /** Every constraint the schema declares: primary keys and the unique codes
      are unique, bounded columns fit, foreign keys resolve. Non-null columns
      are non-null by their Dafny types. */
  predicate ValidStore(s: Store)
  {
    && RegionKeysUnique(s.regions)
    && MedicamentKeysUnique(s.medicaments)
    && ClasseKeysUnique(s.classes)
    && ConsommationIdsUnique(s.consommations)
    && (forall i :: 0 <= i < |s.regions| ==> ValidRegion(s.regions[i]))
    && (forall i :: 0 <= i < |s.medicaments| ==> ValidMedicament(s.medicaments[i]))
    && (forall i :: 0 <= i < |s.classes| ==> ValidClasse(s.classes[i]))
    && (forall i :: 0 <= i < |s.consommations| ==>
          ValidConsommation(s.consommations[i], RegionIds(s.regions), MedicamentIds(s.medicaments)))
  }

  /** `db.query(Region).filter(Region.code_region == code).first()`: the first
      region, in store order, carrying `code`. */
  function RegionWithCode(regions: seq<Region>, code: int): (r: Option<Region>)
    ensures r.Some? <==> exists i :: 0 <= i < |regions| && regions[i].code_region == code
    ensures r.Some? ==> r.value in regions && r.value.code_region == code
  {
    match FindFirst(regions, (x: Region) => x.code_region == code)
    case None => None
    case Some(k) => Some(regions[k])
  }

  /** With unique region codes, the region found by code is the only one. */
  lemma RegionWithCodeUnique(regions: seq<Region>, i: nat)
    requires RegionKeysUnique(regions) && i < |regions|
    ensures RegionWithCode(regions, regions[i].code_region) == Some(regions[i])
  {
    var code := regions[i].code_region;
    var k := FindFirst(regions, (x: Region) => x.code_region == code);
    assert k.Some?;
    assert regions[k.value].code_region == code;
    assert k.value == i;
  }
}
