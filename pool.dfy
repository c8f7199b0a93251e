/**
 * The garage's resource availability table: one counter per resource entry
 * (the value of its semaphore), taken from by waitTillAvailable, given back
 * by releaseResources, and driven by repairPlatform and garage. Every
 * acquisition phase runs atomically, as the garage-wide mutex ensures.
 */
module Pool {
  import opened Records
  import opened Lookup

  /** The resource id of each table entry, in table order. */
  function Ids(table: seq<Resource>): (ids: seq<int>)
    ensures |ids| == |table| && forall i :: 0 <= i < |table| ==> ids[i] == table[i].resID
  {
    seq(|table|, i requires 0 <= i < |table| => table[i].resID)
  }

  /** The quantity of each table entry, the value its semaphore starts with. */
  function Quantities(table: seq<Resource>): (qs: seq<int>)
    ensures |qs| == |table| && forall i :: 0 <= i < |table| ==> qs[i] == table[i].garageQuantity
  {
    seq(|table|, i requires 0 <= i < |table| => table[i].garageQuantity)
  }

  ghost predicate Distinct(ids: seq<int>) {
    forall i, j :: 0 <= i < j < |ids| ==> ids[i] != ids[j]
  }

  /** Entry `i` is the first entry with its id, the one a search by that id stops at. */
  predicate IsFirst(ids: seq<int>, i: nat)
    requires i < |ids|
  {
    forall k :: 0 <= k < i ==> ids[k] != ids[i]
  }

  function Occurrences(s: seq<int>, x: int): nat {
    multiset(s)[x]
  }

  // ---- the counters as values

  /** One waitTillAvailable(r): the first entry with id `r` gives up one unit. */
  function AcquireOne(counts: seq<int>, ids: seq<int>, r: int): (c: seq<int>)
    requires |counts| == |ids|
    ensures |c| == |counts|
  {
    var i := IndexOf(ids, r);
    if i < |ids| then counts[i := counts[i] - 1] else counts
  }

  /** One pass of the inner loop of releaseResources: every entry with id `x` gets a unit back, and no other. */
  function PostOne(counts: seq<int>, ids: seq<int>, x: int): (c: seq<int>)
    requires |counts| == |ids|
    ensures |c| == |counts|
    ensures forall i :: 0 <= i < |ids| ==> c[i] == counts[i] + (if ids[i] == x then 1 else 0)
    decreases |counts|
  {
    if counts == [] then []
    else
      var last := if ids[|ids| - 1] == x then counts[|counts| - 1] + 1 else counts[|counts| - 1];
      PostOne(counts[..|counts| - 1], ids[..|ids| - 1], x) + [last]
  }

  /** waitTillAvailable for each element of a bundle, in order. */
  function AcquireAll(counts: seq<int>, ids: seq<int>, bundle: seq<int>): (c: seq<int>)
    requires |counts| == |ids|
    ensures |c| == |counts|
    decreases |bundle|
  {
    if bundle == [] then counts else AcquireAll(AcquireOne(counts, ids, bundle[0]), ids, bundle[1..])
  }

  /** releaseResources: the outer loop over the list. */
  function ReleaseAll(counts: seq<int>, ids: seq<int>, toPost: seq<int>): (c: seq<int>)
    requires |counts| == |ids|
    ensures |c| == |counts|
    decreases |toPost|
  {
    if toPost == [] then counts else ReleaseAll(PostOne(counts, ids, toPost[0]), ids, toPost[1..])
  }

  /** Every entry has the units the bundle takes from it: the bundle can be acquired now. */
  ghost predicate Affordable(counts: seq<int>, ids: seq<int>, bundle: seq<int>)
    requires |counts| == |ids|
  {
    forall i :: 0 <= i < |ids| && IsFirst(ids, i) && ids[i] in bundle ==> Occurrences(bundle, ids[i]) <= counts[i]
  }

  /** Acquiring the bundle element by element never finds a matching counter at zero. */
  ghost predicate NeverBlocks(counts: seq<int>, ids: seq<int>, bundle: seq<int>)
    requires |counts| == |ids|
    decreases |bundle|
  {
    bundle == [] ||
    ((IndexOf(ids, bundle[0]) < |ids| ==> counts[IndexOf(ids, bundle[0])] > 0)
     && NeverBlocks(AcquireOne(counts, ids, bundle[0]), ids, bundle[1..]))
  }

  // ---- what acquiring and releasing do to each counter

  /** The search by id stops at entry `i` exactly when `i` is the first entry with that id. */
  lemma IndexOfIsFirst(ids: seq<int>, i: nat, x: int)
    requires i < |ids|
    ensures IndexOf(ids, x) == i <==> ids[i] == x && IsFirst(ids, i)
  {
  }

  /**
   * waitTillAvailable takes one unit from the first entry whose id is `r`
   * and from no other; when no entry has id `r` nothing changes.
   */
  lemma AcquireOneEffect(counts: seq<int>, ids: seq<int>, r: int)
    requires |counts| == |ids|
    ensures |AcquireOne(counts, ids, r)| == |counts|
    ensures forall i :: 0 <= i < |ids| ==>
      AcquireOne(counts, ids, r)[i] == counts[i] - (if ids[i] == r && IsFirst(ids, i) then 1 else 0)
    ensures r !in ids ==> AcquireOne(counts, ids, r) == counts
  {
    forall i | 0 <= i < |ids| {
      IndexOfIsFirst(ids, i, r);
    }
  }

  /** After acquiring a bundle, the first entry of each id has given up one unit per occurrence. */
  lemma {:induction false} AcquireAllEffect(counts: seq<int>, ids: seq<int>, bundle: seq<int>)
    requires |counts| == |ids|
    decreases |bundle|
    ensures |AcquireAll(counts, ids, bundle)| == |counts|
    ensures forall i :: 0 <= i < |ids| ==>
      AcquireAll(counts, ids, bundle)[i]
        == counts[i] - (if IsFirst(ids, i) then Occurrences(bundle, ids[i]) else 0)
  {
    if bundle != [] {
      var x, tail := bundle[0], bundle[1..];
      var next := AcquireOne(counts, ids, x);
      AcquireOneEffect(counts, ids, x);
      AcquireAllEffect(next, ids, tail);
      assert bundle == [x] + tail;
      assert multiset(bundle) == multiset{x} + multiset(tail);
      assert AcquireAll(counts, ids, bundle) == AcquireAll(next, ids, tail);
      forall i | 0 <= i < |ids|
        ensures AcquireAll(counts, ids, bundle)[i]
          == counts[i] - (if IsFirst(ids, i) then Occurrences(bundle, ids[i]) else 0)
      {
        assert Occurrences(bundle, ids[i]) == Occurrences(tail, ids[i]) + (if ids[i] == x then 1 else 0);
      }
    }
  }

  /** Releasing a list gives each entry one unit per occurrence of its id in the list. */
  lemma {:induction false} ReleaseAllEffect(counts: seq<int>, ids: seq<int>, toPost: seq<int>)
    requires |counts| == |ids|
    decreases |toPost|
    ensures |ReleaseAll(counts, ids, toPost)| == |counts|
    ensures forall i :: 0 <= i < |ids| ==>
      ReleaseAll(counts, ids, toPost)[i] == counts[i] + Occurrences(toPost, ids[i])
  {
    if toPost != [] {
      var next := PostOne(counts, ids, toPost[0]);
      ReleaseAllEffect(next, ids, toPost[1..]);
      assert toPost == [toPost[0]] + toPost[1..];
      assert multiset(toPost) == multiset{toPost[0]} + multiset(toPost[1..]);
    }
  }

  /** Releasing what was acquired: entries that repeat an earlier id gain the bundle's units of it. */
  lemma AcquireReleaseEffect(counts: seq<int>, ids: seq<int>, bundle: seq<int>)
    requires |counts| == |ids|
    ensures |ReleaseAll(AcquireAll(counts, ids, bundle), ids, bundle)| == |counts|
    ensures forall i :: 0 <= i < |ids| ==>
      ReleaseAll(AcquireAll(counts, ids, bundle), ids, bundle)[i]
        == counts[i] + (if IsFirst(ids, i) then 0 else Occurrences(bundle, ids[i]))
  {
    AcquireAllEffect(counts, ids, bundle);
    ReleaseAllEffect(AcquireAll(counts, ids, bundle), ids, bundle);
  }

  /** With distinct ids, releasing the recorded bundle restores every counter. */
  lemma RepairRoundTrip(counts: seq<int>, ids: seq<int>, bundle: seq<int>)
    requires |counts| == |ids| && Distinct(ids)
    ensures ReleaseAll(AcquireAll(counts, ids, bundle), ids, bundle) == counts
  {
    AcquireReleaseEffect(counts, ids, bundle);
  }

  /** Counting an id in a bundle: the head counts once when it matches, the tail counts the rest. */
  lemma OccurrencesCons(bundle: seq<int>, y: int)
    requires bundle != []
    ensures Occurrences(bundle, y) == Occurrences(bundle[1..], y) + (if y == bundle[0] then 1 else 0)
    ensures y in bundle <==> y == bundle[0] || y in bundle[1..]
  {
    assert bundle == [bundle[0]] + bundle[1..];
    assert multiset(bundle) == multiset{bundle[0]} + multiset(bundle[1..]);
  }

  /** The first unit of an affordable bundle is there, and the rest stays affordable once it is taken. */
  lemma AffordableHead(counts: seq<int>, ids: seq<int>, bundle: seq<int>)
    requires |counts| == |ids| && bundle != [] && Affordable(counts, ids, bundle)
    ensures IndexOf(ids, bundle[0]) < |ids| ==> counts[IndexOf(ids, bundle[0])] > 0
    ensures Affordable(AcquireOne(counts, ids, bundle[0]), ids, bundle[1..])
  {
    var x, tail := bundle[0], bundle[1..];
    var next := AcquireOne(counts, ids, x);
    AcquireOneEffect(counts, ids, x);
    var m := IndexOf(ids, x);
    if m < |ids| {
      IndexOfIsFirst(ids, m, x);
      OccurrencesCons(bundle, x);
      assert Occurrences(bundle, ids[m]) <= counts[m];
    }
    forall i | 0 <= i < |ids| && IsFirst(ids, i) && ids[i] in tail
      ensures Occurrences(tail, ids[i]) <= next[i]
    {
      OccurrencesCons(bundle, ids[i]);
    }
  }

  /** When the first unit is there and the rest is affordable once it is taken, the bundle is affordable. */
  lemma AffordableCons(counts: seq<int>, ids: seq<int>, bundle: seq<int>)
    requires |counts| == |ids| && bundle != []
    requires IndexOf(ids, bundle[0]) < |ids| ==> counts[IndexOf(ids, bundle[0])] > 0
    requires Affordable(AcquireOne(counts, ids, bundle[0]), ids, bundle[1..])
    ensures Affordable(counts, ids, bundle)
  {
    var x, tail := bundle[0], bundle[1..];
    var next := AcquireOne(counts, ids, x);
    AcquireOneEffect(counts, ids, x);
    forall i | 0 <= i < |ids| && IsFirst(ids, i) && ids[i] in bundle
      ensures Occurrences(bundle, ids[i]) <= counts[i]
    {
      OccurrencesCons(bundle, ids[i]);
      if ids[i] == x {
        IndexOfIsFirst(ids, i, x);
      }
    }
  }

  /** A bundle can be acquired one unit at a time without blocking exactly when it is affordable. */
  lemma {:induction false} AffordableIffNeverBlocks(counts: seq<int>, ids: seq<int>, bundle: seq<int>)
    requires |counts| == |ids|
    decreases |bundle|
    ensures Affordable(counts, ids, bundle) <==> NeverBlocks(counts, ids, bundle)
  {
    if bundle != [] {
      AffordableIffNeverBlocks(AcquireOne(counts, ids, bundle[0]), ids, bundle[1..]);
      if Affordable(counts, ids, bundle) {
        AffordableHead(counts, ids, bundle);
      }
      if NeverBlocks(counts, ids, bundle) {
        AffordableCons(counts, ids, bundle);
      }
    }
  }

  /** While a repair holds an affordable bundle, every counter stays between 0 and its old value. */
  lemma HoldingBounds(counts: seq<int>, ids: seq<int>, bundle: seq<int>)
    requires |counts| == |ids| && Affordable(counts, ids, bundle)
    requires forall i :: 0 <= i < |counts| ==> counts[i] >= 0
    ensures |AcquireAll(counts, ids, bundle)| == |counts|
    ensures forall i :: 0 <= i < |ids| ==> 0 <= AcquireAll(counts, ids, bundle)[i] <= counts[i]
  {
    AcquireAllEffect(counts, ids, bundle);
  }

  /** The counters after a car's repairs ran one after another, each acquiring then releasing its bundle. */
  function AfterRepairs(counts: seq<int>, ids: seq<int>, bundles: seq<seq<int>>): (c: seq<int>)
    requires |counts| == |ids|
    ensures |c| == |counts|
    decreases |bundles|
  {
    if bundles == [] then counts
    else
      AcquireReleaseEffect(counts, ids, bundles[0]);
      AfterRepairs(ReleaseAll(AcquireAll(counts, ids, bundles[0]), ids, bundles[0]), ids, bundles[1..])
  }

  /** With distinct ids, a car's whole repair list leaves the table as it found it. */
  lemma {:induction false} CarRunRestores(counts: seq<int>, ids: seq<int>, bundles: seq<seq<int>>)
    requires |counts| == |ids| && Distinct(ids)
    ensures AfterRepairs(counts, ids, bundles) == counts
    decreases |bundles|
  {
    if bundles != [] {
      RepairRoundTrip(counts, ids, bundles[0]);
      CarRunRestores(counts, ids, bundles[1..]);
    }
  }

  /** The ids in `bundle` that have an entry, each as often as it occurs: the units it really takes. */
  function Matched(ids: seq<int>, bundle: seq<int>): multiset<int>
    decreases |bundle|
  {
    if bundle == [] then multiset{}
    else
      var last := bundle[|bundle| - 1];
      Matched(ids, bundle[..|bundle| - 1]) + (if last in ids then multiset{last} else multiset{})
  }

  lemma {:induction false} MatchedCount(ids: seq<int>, bundle: seq<int>, x: int)
    ensures Matched(ids, bundle)[x] == if x in ids then Occurrences(bundle, x) else 0
    decreases |bundle|
  {
    if bundle != [] {
      var init := bundle[..|bundle| - 1];
      MatchedCount(ids, init, x);
      assert bundle == init + [bundle[|bundle| - 1]];
      assert multiset(bundle) == multiset(init) + multiset{bundle[|bundle| - 1]};
    }
  }

  /** One step of acquiring a bundle that never blocks: the wait finds its counter positive. */
  lemma AcquireStep(counts: seq<int>, ids: seq<int>, bundle: seq<int>, j: nat)
    requires |counts| == |ids| && j < |bundle| && NeverBlocks(counts, ids, bundle[j..])
    ensures IndexOf(ids, bundle[j]) < |ids| ==> counts[IndexOf(ids, bundle[j])] > 0
    ensures NeverBlocks(AcquireOne(counts, ids, bundle[j]), ids, bundle[j + 1..])
    ensures AcquireAll(counts, ids, bundle[j..])
         == AcquireAll(AcquireOne(counts, ids, bundle[j]), ids, bundle[j + 1..])
  {
    assert bundle[j..][1..] == bundle[j + 1..];
  }

  lemma MatchedStep(ids: seq<int>, bundle: seq<int>, j: nat)
    requires j < |bundle|
    ensures Matched(ids, bundle[..j + 1])
         == Matched(ids, bundle[..j]) + if bundle[j] in ids then multiset{bundle[j]} else multiset{}
  {
    assert bundle[..j + 1][..j] == bundle[..j];
  }

  /** Part-way through acquiring `bundle` from counters `c0` with `h0` held: its first `j` units are taken. */
  ghost predicate Acquiring(ids: seq<int>, c0: seq<int>, h0: multiset<int>, bundle: seq<int>, j: nat,
                            counts: seq<int>, held: multiset<int>) {
    j <= |bundle| && |c0| == |ids| && |counts| == |ids|
    && NeverBlocks(counts, ids, bundle[j..])
    && AcquireAll(counts, ids, bundle[j..]) == AcquireAll(c0, ids, bundle)
    && held == h0 + Matched(ids, bundle[..j])
  }

  /** Taking the next unit of the bundle: its counter is positive, and one more unit is taken. */
  lemma AcquiringStep(ids: seq<int>, c0: seq<int>, h0: multiset<int>, bundle: seq<int>, j: nat,
                      counts: seq<int>, held: multiset<int>)
    requires Acquiring(ids, c0, h0, bundle, j, counts, held) && j < |bundle|
    ensures bundle[j] in ids ==> counts[IndexOf(ids, bundle[j])] > 0
    ensures Acquiring(ids, c0, h0, bundle, j + 1, AcquireOne(counts, ids, bundle[j]),
                      held + if bundle[j] in ids then multiset{bundle[j]} else multiset{})
  {
    AcquireStep(counts, ids, bundle, j);
    MatchedStep(ids, bundle, j);
  }

  /** One write into a buffer; nothing else changes. A proof aid only: it keeps the verifier's view of the write small. */
  method Store(buf: array<int>, j: nat, x: int)
    requires j < buf.Length
    modifies buf
    ensures buf[..] == old(buf[..])[j := x]
  {
    buf[j] := x;
  }

  /** Writing the next element of `b` into a buffer that holds a prefix of `b` lengthens the prefix. A proof aid only. */
  lemma PrefixGrows(buf: seq<int>, b: seq<int>, j: nat)
    requires j < |buf| && j < |b| && buf[..j] == b[..j]
    ensures buf[j := b[j]][..j + 1] == b[..j + 1]
  {
    assert forall k :: 0 <= k < j ==> buf[k] == buf[..j][k];
  }

  /**
   * The accounting invariant of the table: ids are distinct, only ids of
   * the table are held, and every counter is its entry's quantity less the
   * units held of its id, so it stays between 0 and that quantity.
   */
  ghost predicate Accounted(table: seq<Resource>, counts: seq<int>, held: multiset<int>) {
    |counts| == |table| && Distinct(Ids(table))
    && (forall x :: x in held ==> x in Ids(table))
    && forall i :: 0 <= i < |table| ==>
         0 <= counts[i] <= table[i].garageQuantity
         && counts[i] == table[i].garageQuantity - held[table[i].resID]
  }

  /** The semaphores start at the quantities with nothing held. */
  lemma AccountedInit(table: seq<Resource>)
    requires Distinct(Ids(table))
    requires forall i :: 0 <= i < |table| ==> table[i].garageQuantity >= 0
    ensures Accounted(table, Quantities(table), multiset{})
  {
    var none: multiset<int> := multiset{};
    assert forall i :: 0 <= i < |table| ==> none[table[i].resID] == 0;
  }

  /** A wait that does not block keeps the accounts, the unit taken being held. */
  lemma AccountedAcquire(table: seq<Resource>, counts: seq<int>, held: multiset<int>, r: int)
    requires Accounted(table, counts, held)
    requires r in Ids(table) ==> counts[IndexOf(Ids(table), r)] > 0
    ensures Accounted(table, AcquireOne(counts, Ids(table), r),
                      held + if r in Ids(table) then multiset{r} else multiset{})
  {
    var ids := Ids(table);
    AcquireOneEffect(counts, ids, r);
    if r in ids {
      var m := IndexOf(ids, r);
      forall i | 0 <= i < |table| && i != m
        ensures ids[i] != r
      {
        IndexOfIsFirst(ids, i, r);
      }
    }
  }

  /** Releasing units that are held keeps the accounts, the units given back no longer held. */
  lemma AccountedRelease(table: seq<Resource>, counts: seq<int>, held: multiset<int>, toPost: seq<int>)
    requires Accounted(table, counts, held)
    requires Matched(Ids(table), toPost) <= held
    ensures Accounted(table, ReleaseAll(counts, Ids(table), toPost), held - Matched(Ids(table), toPost))
  {
    var ids := Ids(table);
    ReleaseAllEffect(counts, ids, toPost);
    forall i | 0 <= i < |table|
      ensures Matched(ids, toPost)[ids[i]] == Occurrences(toPost, ids[i])
    {
      MatchedCount(ids, toPost, ids[i]);
    }
  }

  /**
   * The semaphores of the resource table. `held` counts the units that
   * repairs have taken and not yet given back.
   */
  class ResourcePool {
    const table: seq<Resource>
    const sems: array<int>
    ghost var held: multiset<int>

    ghost predicate Valid()
      reads this, sems
    {
      sems.Length == |table| && Accounted(table, sems[..], held)
    }

    /** Initialises one semaphore per entry to the entry's quantity. */
    constructor (res: seq<Resource>)
      requires Distinct(Ids(res))
      requires forall i :: 0 <= i < |res| ==> res[i].garageQuantity >= 0
      ensures Valid() && fresh(sems)
      ensures table == res && held == multiset{}
      ensures sems[..] == Quantities(res)
    {
      table := res;
      held := multiset{};
      sems := new int[|res|];
      new;
      var i := 0;
      while i < |res|
        invariant 0 <= i <= |res| && sems.Length == |res|
        invariant table == res && held == multiset{}
        invariant forall k :: 0 <= k < i ==> sems[k] == res[k].garageQuantity
      {
        sems[i] := res[i].garageQuantity;
        i := i + 1;
      }
      assert sems[..] == Quantities(res);
      AccountedInit(res);
    }

    /** Takes one unit of the first entry whose id is `resID`; an unknown id takes nothing. */
    method WaitTillAvailable(resID: int)
      requires Valid()
      requires resID in Ids(table) ==> sems[IndexOf(Ids(table), resID)] > 0
      modifies this, sems
      ensures Valid()
      ensures sems[..] == AcquireOne(old(sems[..]), Ids(table), resID)
      ensures held == old(held) + if resID in Ids(table) then multiset{resID} else multiset{}
    {
      AccountedAcquire(table, sems[..], held, resID);
      var i := 0;
      while i < sems.Length
        invariant 0 <= i <= sems.Length
        invariant forall k :: 0 <= k < i ==> table[k].resID != resID
        invariant sems[..] == old(sems[..]) && held == old(held)
      {
        if table[i].resID == resID {
          assert IndexOf(Ids(table), resID) == i;
          sems[i] := sems[i] - 1;
          held := held + multiset{resID};
          return;
        }
        i := i + 1;
      }
      assert resID !in Ids(table);
    }

    /** Gives one unit back to every entry whose id matches, once per element of `toPost`. */
    method ReleaseResources(toPost: seq<int>)
      requires Valid()
      requires Matched(Ids(table), toPost) <= held
      modifies this, sems
      ensures Valid()
      ensures sems[..] == ReleaseAll(old(sems[..]), Ids(table), toPost)
      ensures held == old(held) - Matched(Ids(table), toPost)
    {
      ghost var ids := Ids(table);
      AccountedRelease(table, sems[..], held, toPost);
      var j := 0;
      while j < |toPost|
        invariant 0 <= j <= |toPost| && sems.Length == |ids| && held == old(held)
        invariant ReleaseAll(sems[..], ids, toPost[j..]) == ReleaseAll(old(sems[..]), ids, toPost)
      {
        PostMatching(toPost[j]);
        assert toPost[j..][1..] == toPost[j + 1..];
        j := j + 1;
      }
      assert toPost[j..] == [];
      held := held - Matched(ids, toPost);
    }

    /** The inner loop of releaseResources: one unit back to every entry with id `x`. */
    method PostMatching(x: int)
      requires sems.Length == |table|
      modifies sems
      ensures sems[..] == PostOne(old(sems[..]), Ids(table), x)
    {
      ghost var ids := Ids(table);
      var i := 0;
      while i < sems.Length
        invariant 0 <= i <= sems.Length
        invariant forall k :: 0 <= k < i ==> sems[k] == old(sems[k]) + (if ids[k] == x then 1 else 0)
        invariant forall k :: i <= k < sems.Length ==> sems[k] == old(sems[k])
      {
        if table[i].resID == x {
          sems[i] := sems[i] + 1;
        }
        i := i + 1;
      }
    }

    /**
     * The locked phase of a repair: one wait per element of the bundle,
     * each element copied into the list of resources to release later.
     */
    method AcquireBundle(bundle: seq<int>) returns (recorded: seq<int>)
      requires Valid() && Affordable(sems[..], Ids(table), bundle)
      modifies this, sems
      ensures Valid()
      ensures recorded == bundle
      ensures sems[..] == AcquireAll(old(sems[..]), Ids(table), bundle)
      ensures held == old(held) + Matched(Ids(table), bundle)
    {
      ghost var ids := Ids(table);
      AffordableIffNeverBlocks(sems[..], ids, bundle);
      var toRelease := new int[|bundle|];
      ghost var c0, h0 := sems[..], held;
      assert bundle[..0] == [] && bundle[0..] == bundle;
      var j := 0;
      while j < |bundle|
        invariant 0 <= j <= |bundle| && Valid()
        invariant Acquiring(ids, c0, h0, bundle, j, sems[..], held)
        invariant toRelease[..j] == bundle[..j]
      {
        AcquiringStep(ids, c0, h0, bundle, j, sems[..], held);
        ghost var before := toRelease[..];
        Store(toRelease, j, bundle[j]);
        PrefixGrows(before, bundle, j);
        ghost var saved := toRelease[..];
        WaitTillAvailable(bundle[j]);
        assert toRelease[..] == saved;
        j := j + 1;
      }
      assert bundle[j..] == [] && bundle[..j] == bundle;
      recorded := toRelease[..];
    }

    /**
     * One repair: finds the repair by id, acquires its whole bundle,
     * then gives back the recorded list, leaving the table as it was.
     */
    method RepairPlatform(catalog: seq<Repair>, serviceID: int) returns (recorded: seq<int>)
      requires Valid() && serviceID in RepairIds(catalog)
      requires Affordable(sems[..], Ids(table), BundleOf(catalog, serviceID))
      modifies this, sems
      ensures Valid()
      ensures recorded == BundleOf(catalog, serviceID)
      ensures sems[..] == old(sems[..]) && held == old(held)
    {
      var i := FindRepair(catalog, serviceID);
      assert i == IndexOf(RepairIds(catalog), serviceID);
      recorded := AcquireBundle(catalog[i].resources);
      ReleaseResources(recorded);
      assert held == old(held);
      RepairRoundTrip(old(sems[..]), Ids(table), recorded);
    }

    /** A car's repairs, one after another in the order it listed them. */
    method Garage(car: Request, catalog: seq<Repair>) returns (log: seq<seq<int>>)
      requires Valid()
      requires forall k :: 0 <= k < |car.requests| ==> car.requests[k] in RepairIds(catalog)
      requires forall k :: 0 <= k < |car.requests| ==>
        Affordable(sems[..], Ids(table), BundleOf(catalog, car.requests[k]))
      modifies this, sems
      ensures Valid()
      ensures sems[..] == old(sems[..]) && held == old(held)
      ensures |log| == |car.requests|
      ensures forall k :: 0 <= k < |log| ==> log[k] == BundleOf(catalog, car.requests[k])
    {
      log := [];
      var i := 0;
      while i < |car.requests|
        invariant 0 <= i <= |car.requests| && Valid()
        invariant sems[..] == old(sems[..]) && held == old(held)
        invariant |log| == i
        invariant forall k :: 0 <= k < i ==> log[k] == BundleOf(catalog, car.requests[k])
      {
        var recorded := RepairPlatform(catalog, car.requests[i]);
        log := log + [recorded];
        i := i + 1;
      }
    }
  }
}
