/**
 * First-match search by id, the search the garage performs in its repair
 * catalog and in its resource table.
 */
module Lookup {
  import opened Records

  /** The index of the first occurrence of `k` in `keys`, or `|keys|` when there is none. */
  function IndexOf(keys: seq<int>, k: int): (i: nat)
    ensures i <= |keys|
    ensures i < |keys| ==> keys[i] == k
    ensures forall j :: 0 <= j < i ==> keys[j] != k
  {
    if keys == [] then 0
    else if keys[0] == k then 0
    else 1 + IndexOf(keys[1..], k)
  }

  /** The ids of the catalog entries, in catalog order. */
  function RepairIds(catalog: seq<Repair>): (ids: seq<int>)
    ensures |ids| == |catalog|
    ensures forall i :: 0 <= i < |catalog| ==> ids[i] == catalog[i].id
  {
    seq(|catalog|, i requires 0 <= i < |catalog| => catalog[i].id)
  }

  /** The resource bundle of the first catalog entry with id `serviceID`. */
  function BundleOf(catalog: seq<Repair>, serviceID: int): seq<int>
    requires serviceID in RepairIds(catalog)
  {
    catalog[IndexOf(RepairIds(catalog), serviceID)].resources
  }

  /**
   * The catalog search of repairPlatform: scans the catalog in order and stops
   * at the first entry whose id is `serviceID`. The source reads past the end of
   * the catalog when no entry matches, so the id must be present.
   */
  method FindRepair(catalog: seq<Repair>, serviceID: int) returns (i: nat)
    requires serviceID in RepairIds(catalog)
    ensures i < |catalog| && catalog[i].id == serviceID
    ensures forall k :: 0 <= k < i ==> catalog[k].id != serviceID
  {
    i := 0;
    while i < |catalog|
      invariant 0 <= i <= |catalog|
      invariant forall k :: 0 <= k < i ==> catalog[k].id != serviceID
    {
      if catalog[i].id == serviceID {
        return;
      }
      i := i + 1;
    }
  }
}
