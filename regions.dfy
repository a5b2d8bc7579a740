/** The region endpoints (backend/app/routers/regions.py): the full list,
    lookup by primary key and lookup by INSEE region code. */
module Regions {
  import opened Seqs
  import opened Models
  import opened Http

  /** `get_all_regions`: every row of `regions`, in store order. */
  function GetAllRegions(store: Store): (r: seq<Region>)
    ensures |r| == |store.regions|
    ensures forall x :: x in r <==> x in store.regions
  {
    store.regions
  }

  /** `get_region`: the region whose primary key is `id`, or 404. */
  function GetRegion(store: Store, id: int): (r: Reply<Region>)
    ensures Status(r) == 200 <==> exists i :: 0 <= i < |store.regions| && store.regions[i].id == id
    ensures Status(r) == 404 <==> forall i :: 0 <= i < |store.regions| ==> store.regions[i].id != id
    ensures r.Ok? ==> r.value in store.regions && r.value.id == id
    ensures r.NotFound? ==> r.detail == REGION_NOT_FOUND
  {
    match FindFirst(store.regions, (x: Region) => x.id == id)
    case None => NotFound(REGION_NOT_FOUND)
    case Some(k) => Ok(store.regions[k])
  }

  /** `get_region_by_code`: the region carrying `code_region`, or 404. */
  function GetRegionByCode(store: Store, code_region: int): (r: Reply<Region>)
    ensures Status(r) == 200 <==> exists i :: 0 <= i < |store.regions| && store.regions[i].code_region == code_region
    ensures Status(r) == 404 <==> forall i :: 0 <= i < |store.regions| ==> store.regions[i].code_region != code_region
    ensures r.Ok? ==> r.value in store.regions && r.value.code_region == code_region
    ensures r.NotFound? ==> r.detail == REGION_NOT_FOUND
  {
    match RegionWithCode(store.regions, code_region)
    case None => NotFound(REGION_NOT_FOUND)
    case Some(x) => Ok(x)
  }

  /** With unique keys, either lookup returns the one region that has the
      key, and the two lookups agree on every stored region. */
  lemma LookupsAgree(store: Store, i: nat)
    requires RegionKeysUnique(store.regions) && i < |store.regions|
    ensures GetRegion(store, store.regions[i].id) == Ok(store.regions[i])
    ensures GetRegionByCode(store, store.regions[i].code_region) == Ok(store.regions[i])
  {
    var id := store.regions[i].id;
    var k := FindFirst(store.regions, (x: Region) => x.id == id);
    assert k.Some?;
    assert store.regions[k.value].id == id;
    assert k.value == i;
    RegionWithCodeUnique(store.regions, i);
  }

  /** Looking a region up by the code of the region found by id returns the
      same region, and back. */
  lemma LookupRoundTrip(store: Store, id: int)
    requires RegionKeysUnique(store.regions)
    ensures GetRegion(store, id).Ok? ==>
      GetRegionByCode(store, GetRegion(store, id).value.code_region) == GetRegion(store, id)
  {
    var r := GetRegion(store, id);
    if r.Ok? {
      var i :| 0 <= i < |store.regions| && store.regions[i] == r.value;
      LookupsAgree(store, i);
    }
  }
}
