/** pkg/pb/synthetic_monitoring/ids.go and internal/model/model.go: packing a
    local id and a region into one negative global id. */
module Ids {

  const MAX_INT_64: int := 0x7fff_ffff_ffff_ffff
  type int64 = x: int | -MAX_INT_64 - 1 <= x <= MAX_INT_64

  const MAX_REGIONS := 1000
  const MIN_REGION_ID := 1
  const MAX_REGION_ID := MAX_REGIONS - 1
  const MIN_LOCAL_ID := 1
  const MAX_LOCAL_ID := MAX_INT_64 / MAX_REGIONS - 1
  const MAX_GLOBAL_ID := -(MIN_LOCAL_ID * MAX_REGIONS + MIN_REGION_ID)
  const MIN_GLOBAL_ID := -(MAX_LOCAL_ID * MAX_REGIONS + MAX_REGION_ID)

  datatype Result<+T> = Ok(value: T) | BadId

  predicate IsGlobalIDValid(id: int64) { MIN_GLOBAL_ID <= id <= MAX_GLOBAL_ID }
  predicate IsRegionIDValid(id: int) { MIN_REGION_ID <= id <= MAX_REGION_ID }
  predicate IsLocalIDValid(id: int64) { MIN_LOCAL_ID <= id <= MAX_LOCAL_ID }

  function LocalIDToGlobalID(local: int64, region: int): (r: Result<int64>)
    ensures r.Ok? <==> IsLocalIDValid(local) && IsRegionIDValid(region)
    ensures r.Ok? ==> r.value < 0 && GlobalIDToLocalID(r.value) == Ok((local, region))
  {
    if !IsLocalIDValid(local) || !IsRegionIDValid(region) then BadId
    else
      var packed := local * MAX_REGIONS + region;
      assert packed / MAX_REGIONS == local && packed % MAX_REGIONS == region;
      Ok(-packed)
  }

  /** Operands of the division are positive, where Go's and Dafny's agree. */
  function GlobalIDToLocalID(global: int64): (r: Result<(int64, int)>) {
    if !IsGlobalIDValid(global) then BadId
    else
      var local, region := -global / MAX_REGIONS, -global % MAX_REGIONS;
      if !IsRegionIDValid(region) then BadId else Ok((local, region))
  }

  function GetLocalAndRegionIDs(id: int64): (r: (int64, int)) {
    match GlobalIDToLocalID(id)
    case Ok(pair) => pair
    case BadId => (id, 0)
  }

  /** Check.GlobalID. */
  function GlobalID(local: int64, region: int): (r: int64) {
    match LocalIDToGlobalID(local, region)
    case Ok(id) => id
    case BadId => local
  }

  /** The two conversions undo each other wherever either succeeds, and global
      ids are negative, apart from all local ids. */
  lemma ConversionsAreInverse(local: int64, region: int, global: int64)
    ensures LocalIDToGlobalID(local, region) == Ok(global) <==> GlobalIDToLocalID(global) == Ok((local, region))
    ensures LocalIDToGlobalID(local, region) == Ok(global) ==> global < 0 && !IsLocalIDValid(global)
  {
    if IsLocalIDValid(local) && IsRegionIDValid(region) {
      var packed := local * MAX_REGIONS + region;
      assert packed / MAX_REGIONS == local && packed % MAX_REGIONS == region;
    }
  }

  /** FromSM splits an id and GlobalID packs it again: any 64-bit id survives. */
  lemma SplitThenPack(id: int64)
    ensures var (local, region) := GetLocalAndRegionIDs(id); GlobalID(local, region) == id
  {
    if GlobalIDToLocalID(id).Ok? {
      var (local, region) := GetLocalAndRegionIDs(id);
      ConversionsAreInverse(local, region, id);
    }
  }

  /** A local id that looks global, which FromSM never makes, is split further. */
  lemma PairCanBeLost()
    ensures GetLocalAndRegionIDs(GlobalID(-1001, 0)) == (1, 1)
  {
  }

  /** The pairs FromSM makes are given back. */
  lemma SplitPairsSurvive(id: int64)
    ensures var (local, region) := GetLocalAndRegionIDs(id); GetLocalAndRegionIDs(GlobalID(local, region)) == (local, region)
  {
    SplitThenPack(id);
  }

  /** Packing then splitting gives the pair back exactly for the valid pairs,
      and for ids kept as they are in region 0 that are not global themselves. */
  lemma PackThenSplitIff(local: int64, region: int)
    ensures GetLocalAndRegionIDs(GlobalID(local, region)) == (local, region)
      <==> (IsLocalIDValid(local) && IsRegionIDValid(region)) || (region == 0 && GlobalIDToLocalID(local).BadId?)
  {
    if IsLocalIDValid(local) && IsRegionIDValid(region) {
      ConversionsAreInverse(local, region, GlobalID(local, region));
    } else if GlobalIDToLocalID(local).Ok? {
      var (l, r) := GlobalIDToLocalID(local).value;
      ConversionsAreInverse(l, r, local);
    }
  }
}
