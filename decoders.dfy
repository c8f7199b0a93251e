/**
 * The three loaders (readReq, readRep, readRes): each counts the records of
 * its file with readLines, then reads that many records field by field with
 * retrieveData. Numeric fields go through `atoi`, which is not part of this
 * model and is therefore a parameter.
 */
module Decoders {
  import opened Records
  import opened Tokenizer

  type Atoi = Field -> int

  /** How many times `for (k = 0; k < n; k++)` runs. */
  function Width(n: int): (w: nat)
    ensures n >= 0 ==> w == n
    ensures n < 0 ==> w == 0
  {
    if n < 0 then 0 else n
  }

  /** The numbers at `f[p..p + n]`, decoded. */
  function Numbers(f: seq<Field>, p: nat, n: nat, atoi: Atoi): (xs: seq<int>)
    requires p + n <= |f|
    ensures |xs| == n && forall k :: 0 <= k < n ==> xs[k] == atoi(f[p + k])
  {
    if n == 0 then [] else Numbers(f, p, n - 1, atoi) + [atoi(f[p + n - 1])]
  }

  // ---- one record starting at field `p`: whether it is all there, its size, its value

  /** Serial number, arrival hour, count, then `count` repair ids. */
  predicate RequestFits(f: seq<Field>, p: nat, atoi: Atoi) {
    p + 3 <= |f| && p + 3 + Width(atoi(f[p + 2])) <= |f|
  }

  function RequestSize(f: seq<Field>, p: nat, atoi: Atoi): nat
    requires RequestFits(f, p, atoi)
  {
    3 + Width(atoi(f[p + 2]))
  }

  /** The request whose fields start at `p`: one number per field, the repair ids as many as field `p + 2` says. */
  function RequestAt(f: seq<Field>, p: nat, atoi: Atoi): (r: Request)
    requires RequestFits(f, p, atoi)
    ensures r.serialNumber == atoi(f[p]) && r.time == atoi(f[p + 1])
    ensures |r.requests| == Width(atoi(f[p + 2])) == RequestSize(f, p, atoi) - 3
  {
    Request(atoi(f[p]), atoi(f[p + 1]), Numbers(f, p + 3, Width(atoi(f[p + 2])), atoi))
  }

  /** Id, name, hours, count, then `count` resource ids. */
  predicate RepairFits(f: seq<Field>, p: nat, atoi: Atoi) {
    p + 4 <= |f| && p + 4 + Width(atoi(f[p + 3])) <= |f|
  }

  function RepairSize(f: seq<Field>, p: nat, atoi: Atoi): nat
    requires RepairFits(f, p, atoi)
  {
    4 + Width(atoi(f[p + 3]))
  }

  /** The repair whose fields start at `p`: the name is field `p + 1` as read, the resource ids as many as field `p + 3` says. */
  function RepairAt(f: seq<Field>, p: nat, atoi: Atoi): (r: Repair)
    requires RepairFits(f, p, atoi)
    ensures r.id == atoi(f[p]) && r.name == f[p + 1] && r.hoursNeeded == atoi(f[p + 2])
    ensures |r.resources| == Width(atoi(f[p + 3])) == RepairSize(f, p, atoi) - 4
  {
    Repair(atoi(f[p]), f[p + 1], atoi(f[p + 2]), Numbers(f, p + 4, Width(atoi(f[p + 3])), atoi))
  }

  /** Id, name, quantity. */
  function ResourceAt(f: seq<Field>, p: nat, atoi: Atoi): (r: Resource)
    requires p + 3 <= |f|
    ensures r.resID == atoi(f[p]) && r.name == f[p + 1] && r.garageQuantity == atoi(f[p + 2])
  {
    Resource(atoi(f[p]), f[p + 1], atoi(f[p + 2]))
  }

  // ---- `n` records in a row

  predicate RequestsFit(f: seq<Field>, p: nat, atoi: Atoi, n: nat)
    decreases n
  {
    n == 0 || (RequestFits(f, p, atoi) && RequestsFit(f, p + RequestSize(f, p, atoi), atoi, n - 1))
  }

  /** `n` requests, each starting where the previous one's fields end. */
  function DecodeRequests(f: seq<Field>, p: nat, atoi: Atoi, n: nat): (rs: seq<Request>)
    requires RequestsFit(f, p, atoi, n)
    ensures |rs| == n
    decreases n
  {
    if n == 0 then []
    else [RequestAt(f, p, atoi)] + DecodeRequests(f, p + RequestSize(f, p, atoi), atoi, n - 1)
  }

  predicate RepairsFit(f: seq<Field>, p: nat, atoi: Atoi, n: nat)
    decreases n
  {
    n == 0 || (RepairFits(f, p, atoi) && RepairsFit(f, p + RepairSize(f, p, atoi), atoi, n - 1))
  }

  /** `n` repairs, each starting where the previous one's fields end. */
  function DecodeRepairs(f: seq<Field>, p: nat, atoi: Atoi, n: nat): (rs: seq<Repair>)
    requires RepairsFit(f, p, atoi, n)
    ensures |rs| == n
    decreases n
  {
    if n == 0 then []
    else [RepairAt(f, p, atoi)] + DecodeRepairs(f, p + RepairSize(f, p, atoi), atoi, n - 1)
  }

  /** `n` resources of three fields each: the k-th starts at field `p + 3k`. */
  function DecodeResources(f: seq<Field>, p: nat, atoi: Atoi, n: nat): (rs: seq<Resource>)
    requires p + 3 * n <= |f|
    ensures |rs| == n && forall k :: 0 <= k < n ==> rs[k] == ResourceAt(f, p + 3 * k, atoi)
    decreases n
  {
    if n == 0 then [] else [ResourceAt(f, p, atoi)] + DecodeResources(f, p + 3, atoi, n - 1)
  }

  // ---- the file layout, as whoever prepares the input files writes it

  function Shown(xs: seq<int>, itoa: int -> Field): (fs: seq<Field>)
    ensures |fs| == |xs| && forall k :: 0 <= k < |xs| ==> fs[k] == itoa(xs[k])
  {
    if xs == [] then [] else Shown(xs[..|xs| - 1], itoa) + [itoa(xs[|xs| - 1])]
  }

  function EncodeRequest(r: Request, itoa: int -> Field): seq<Field> {
    [itoa(r.serialNumber), itoa(r.time), itoa(|r.requests|)] + Shown(r.requests, itoa)
  }

  function EncodeRepair(r: Repair, itoa: int -> Field): seq<Field> {
    [itoa(r.id), r.name, itoa(r.hoursNeeded), itoa(|r.resources|)] + Shown(r.resources, itoa)
  }

  function EncodeResource(r: Resource, itoa: int -> Field): seq<Field> {
    [itoa(r.resID), r.name, itoa(r.garageQuantity)]
  }

  function EncodeRequests(rs: seq<Request>, itoa: int -> Field): seq<Field> {
    if rs == [] then [] else EncodeRequest(rs[0], itoa) + EncodeRequests(rs[1..], itoa)
  }

  function EncodeRepairs(rs: seq<Repair>, itoa: int -> Field): seq<Field> {
    if rs == [] then [] else EncodeRepair(rs[0], itoa) + EncodeRepairs(rs[1..], itoa)
  }

  function EncodeResources(rs: seq<Resource>, itoa: int -> Field): seq<Field> {
    if rs == [] then [] else EncodeResource(rs[0], itoa) + EncodeResources(rs[1..], itoa)
  }

  ghost predicate Inverse(atoi: Atoi, itoa: int -> Field) {
    forall x :: atoi(itoa(x)) == x
  }

  // ---- round trips: a record takes exactly its layout's fields and decodes to itself

  /** The fields `e` appear in `f` from position `p` on. */
  ghost predicate WrittenAt(f: seq<Field>, p: nat, e: seq<Field>) {
    p + |e| <= |f| && forall k :: 0 <= k < |e| ==> f[p + k] == e[k]
  }

  lemma WrittenSplit(f: seq<Field>, p: nat, a: seq<Field>, b: seq<Field>)
    requires WrittenAt(f, p, a + b)
    ensures WrittenAt(f, p, a) && WrittenAt(f, p + |a|, b)
  {
    forall k | 0 <= k < |a| ensures f[p + k] == a[k] {
      assert (a + b)[k] == a[k];
    }
    forall k | 0 <= k < |b| ensures f[p + |a| + k] == b[k] {
      assert (a + b)[|a| + k] == b[k];
    }
  }

  lemma WrittenInContext(pre: seq<Field>, e: seq<Field>, more: seq<Field>)
    ensures WrittenAt(pre + e + more, |pre|, e)
  {
    forall k | 0 <= k < |e| ensures (pre + e + more)[|pre| + k] == e[k] {
    }
  }

  /** Decoding numbers written one per field gives them back. */
  lemma NumbersOfShown(xs: seq<int>, f: seq<Field>, p: nat, atoi: Atoi, itoa: int -> Field)
    requires Inverse(atoi, itoa) && WrittenAt(f, p, Shown(xs, itoa))
    ensures Numbers(f, p, |xs|, atoi) == xs
  {
    forall k | 0 <= k < |xs| ensures atoi(f[p + k]) == xs[k] {
      assert f[p + k] == Shown(xs, itoa)[k];
    }
  }

  /** A request written at `p` takes 3 + numOfRequests fields and decodes to itself. */
  lemma RequestRoundTrip(r: Request, f: seq<Field>, p: nat, atoi: Atoi, itoa: int -> Field)
    requires Inverse(atoi, itoa) && WrittenAt(f, p, EncodeRequest(r, itoa))
    ensures RequestFits(f, p, atoi)
    ensures RequestSize(f, p, atoi) == |EncodeRequest(r, itoa)| == 3 + |r.requests|
    ensures RequestAt(f, p, atoi) == r
  {
    var fixed := [itoa(r.serialNumber), itoa(r.time), itoa(|r.requests|)];
    WrittenSplit(f, p, fixed, Shown(r.requests, itoa));
    assert f[p] == fixed[0] && f[p + 1] == fixed[1] && f[p + 2] == fixed[2];
    NumbersOfShown(r.requests, f, p + 3, atoi, itoa);
  }

  /** A repair written at `p` takes 4 + numOfRes fields and decodes to itself. */
  lemma RepairRoundTrip(r: Repair, f: seq<Field>, p: nat, atoi: Atoi, itoa: int -> Field)
    requires Inverse(atoi, itoa) && WrittenAt(f, p, EncodeRepair(r, itoa))
    ensures RepairFits(f, p, atoi)
    ensures RepairSize(f, p, atoi) == |EncodeRepair(r, itoa)| == 4 + |r.resources|
    ensures RepairAt(f, p, atoi) == r
  {
    var fixed := [itoa(r.id), r.name, itoa(r.hoursNeeded), itoa(|r.resources|)];
    WrittenSplit(f, p, fixed, Shown(r.resources, itoa));
    assert f[p] == fixed[0] && f[p + 1] == fixed[1] && f[p + 2] == fixed[2] && f[p + 3] == fixed[3];
    NumbersOfShown(r.resources, f, p + 4, atoi, itoa);
  }

  /** A resource written at `p` takes 3 fields and decodes to itself. */
  lemma ResourceRoundTrip(r: Resource, f: seq<Field>, p: nat, atoi: Atoi, itoa: int -> Field)
    requires Inverse(atoi, itoa) && WrittenAt(f, p, EncodeResource(r, itoa))
    ensures p + 3 <= |f| && ResourceAt(f, p, atoi) == r
  {
    var e := EncodeResource(r, itoa);
    assert f[p] == e[0] && f[p + 1] == e[1] && f[p + 2] == e[2];
  }

  /** A request `r` at `p`, followed by requests that decode to `tail` right after it, decodes to `[r] + tail`. */
  lemma RequestsCons(f: seq<Field>, p: nat, atoi: Atoi, r: Request, tail: seq<Request>)
    requires RequestFits(f, p, atoi) && RequestAt(f, p, atoi) == r
    requires RequestsFit(f, p + RequestSize(f, p, atoi), atoi, |tail|)
    requires DecodeRequests(f, p + RequestSize(f, p, atoi), atoi, |tail|) == tail
    ensures RequestsFit(f, p, atoi, |tail| + 1) && DecodeRequests(f, p, atoi, |tail| + 1) == [r] + tail
  {
  }

  /** Each of `rs` written at its own position, one right after another from `p`. */
  ghost predicate RequestsLaidOut(f: seq<Field>, p: nat, rs: seq<Request>, itoa: int -> Field)
    decreases |rs|
  {
    rs == [] || (WrittenAt(f, p, EncodeRequest(rs[0], itoa))
                 && RequestsLaidOut(f, p + |EncodeRequest(rs[0], itoa)|, rs[1..], itoa))
  }

  /** The layout of a whole requests file places each request right after the one before. */
  lemma {:induction false} RequestsLaidOutOfWritten(f: seq<Field>, p: nat, rs: seq<Request>, itoa: int -> Field)
    requires WrittenAt(f, p, EncodeRequests(rs, itoa))
    ensures RequestsLaidOut(f, p, rs, itoa)
    decreases |rs|
  {
    if rs != [] {
      var head := EncodeRequest(rs[0], itoa);
      WrittenSplit(f, p, head, EncodeRequests(rs[1..], itoa));
      RequestsLaidOutOfWritten(f, p + |head|, rs[1..], itoa);
    }
  }

  /** The first of requests laid out from `p` decodes to itself, and the others are laid out right after it. */
  lemma RequestsWrittenHead(rs: seq<Request>, f: seq<Field>, p: nat, atoi: Atoi, itoa: int -> Field)
    requires Inverse(atoi, itoa) && rs != [] && RequestsLaidOut(f, p, rs, itoa)
    ensures RequestFits(f, p, atoi) && RequestAt(f, p, atoi) == rs[0]
    ensures RequestsLaidOut(f, p + RequestSize(f, p, atoi), rs[1..], itoa)
  {
    RequestRoundTrip(rs[0], f, p, atoi, itoa);
  }

  /** Requests laid out one after another from `p` decode back to themselves. */
  lemma {:induction false} RequestsWritten(rs: seq<Request>, f: seq<Field>, p: nat, atoi: Atoi, itoa: int -> Field)
    requires Inverse(atoi, itoa) && RequestsLaidOut(f, p, rs, itoa)
    ensures RequestsFit(f, p, atoi, |rs|) && DecodeRequests(f, p, atoi, |rs|) == rs
  {
    if rs != [] {
      RequestsWrittenHead(rs, f, p, atoi, itoa);
      RequestsWritten(rs[1..], f, p + RequestSize(f, p, atoi), atoi, itoa);
      RequestsCons(f, p, atoi, rs[0], rs[1..]);
      assert [rs[0]] + rs[1..] == rs;
    }
  }

  /** A repair `r` at `p`, followed by repairs that decode to `tail` right after it, decodes to `[r] + tail`. */
  lemma RepairsCons(f: seq<Field>, p: nat, atoi: Atoi, r: Repair, tail: seq<Repair>)
    requires RepairFits(f, p, atoi) && RepairAt(f, p, atoi) == r
    requires RepairsFit(f, p + RepairSize(f, p, atoi), atoi, |tail|)
    requires DecodeRepairs(f, p + RepairSize(f, p, atoi), atoi, |tail|) == tail
    ensures RepairsFit(f, p, atoi, |tail| + 1) && DecodeRepairs(f, p, atoi, |tail| + 1) == [r] + tail
  {
  }

  /** Each of `rs` written at its own position, one right after another from `p`. */
  ghost predicate RepairsLaidOut(f: seq<Field>, p: nat, rs: seq<Repair>, itoa: int -> Field)
    decreases |rs|
  {
    rs == [] || (WrittenAt(f, p, EncodeRepair(rs[0], itoa))
                 && RepairsLaidOut(f, p + |EncodeRepair(rs[0], itoa)|, rs[1..], itoa))
  }

  /** The layout of a whole repairs file places each repair right after the one before. */
  lemma {:induction false} RepairsLaidOutOfWritten(f: seq<Field>, p: nat, rs: seq<Repair>, itoa: int -> Field)
    requires WrittenAt(f, p, EncodeRepairs(rs, itoa))
    ensures RepairsLaidOut(f, p, rs, itoa)
    decreases |rs|
  {
    if rs != [] {
      var head := EncodeRepair(rs[0], itoa);
      WrittenSplit(f, p, head, EncodeRepairs(rs[1..], itoa));
      RepairsLaidOutOfWritten(f, p + |head|, rs[1..], itoa);
    }
  }

  /** The first of repairs laid out from `p` decodes to itself, and the others are laid out right after it. */
  lemma RepairsWrittenHead(rs: seq<Repair>, f: seq<Field>, p: nat, atoi: Atoi, itoa: int -> Field)
    requires Inverse(atoi, itoa) && rs != [] && RepairsLaidOut(f, p, rs, itoa)
    ensures RepairFits(f, p, atoi) && RepairAt(f, p, atoi) == rs[0]
    ensures RepairsLaidOut(f, p + RepairSize(f, p, atoi), rs[1..], itoa)
  {
    RepairRoundTrip(rs[0], f, p, atoi, itoa);
  }

  /** Repairs laid out one after another from `p` decode back to themselves. */
  lemma {:induction false} RepairsWritten(rs: seq<Repair>, f: seq<Field>, p: nat, atoi: Atoi, itoa: int -> Field)
    requires Inverse(atoi, itoa) && RepairsLaidOut(f, p, rs, itoa)
    ensures RepairsFit(f, p, atoi, |rs|) && DecodeRepairs(f, p, atoi, |rs|) == rs
  {
    if rs != [] {
      RepairsWrittenHead(rs, f, p, atoi, itoa);
      RepairsWritten(rs[1..], f, p + RepairSize(f, p, atoi), atoi, itoa);
      RepairsCons(f, p, atoi, rs[0], rs[1..]);
      assert [rs[0]] + rs[1..] == rs;
    }
  }

  /** Resources written one after another from `p` decode back to themselves, three fields each. */
  lemma {:induction false} ResourcesWritten(rs: seq<Resource>, f: seq<Field>, p: nat, atoi: Atoi, itoa: int -> Field)
    requires Inverse(atoi, itoa) && WrittenAt(f, p, EncodeResources(rs, itoa))
    ensures p + 3 * |rs| <= |f| && DecodeResources(f, p, atoi, |rs|) == rs
  {
    if rs != [] {
      var head := EncodeResource(rs[0], itoa);
      WrittenSplit(f, p, head, EncodeResources(rs[1..], itoa));
      ResourceRoundTrip(rs[0], f, p, atoi, itoa);
      ResourcesWritten(rs[1..], f, p + 3, atoi, itoa);
      assert [rs[0]] + rs[1..] == rs;
    }
  }

  /** A requests file's fields, written after any fields and followed by any, decode back. */
  lemma RequestsRoundTrip(rs: seq<Request>, pre: seq<Field>, more: seq<Field>, atoi: Atoi, itoa: int -> Field)
    requires Inverse(atoi, itoa)
    ensures RequestsFit(pre + EncodeRequests(rs, itoa) + more, |pre|, atoi, |rs|)
    ensures DecodeRequests(pre + EncodeRequests(rs, itoa) + more, |pre|, atoi, |rs|) == rs
  {
    WrittenInContext(pre, EncodeRequests(rs, itoa), more);
    RequestsLaidOutOfWritten(pre + EncodeRequests(rs, itoa) + more, |pre|, rs, itoa);
    RequestsWritten(rs, pre + EncodeRequests(rs, itoa) + more, |pre|, atoi, itoa);
  }

  /** A repairs file's fields, written after any fields and followed by any, decode back. */
  lemma RepairsRoundTrip(rs: seq<Repair>, pre: seq<Field>, more: seq<Field>, atoi: Atoi, itoa: int -> Field)
    requires Inverse(atoi, itoa)
    ensures RepairsFit(pre + EncodeRepairs(rs, itoa) + more, |pre|, atoi, |rs|)
    ensures DecodeRepairs(pre + EncodeRepairs(rs, itoa) + more, |pre|, atoi, |rs|) == rs
  {
    WrittenInContext(pre, EncodeRepairs(rs, itoa), more);
    RepairsLaidOutOfWritten(pre + EncodeRepairs(rs, itoa) + more, |pre|, rs, itoa);
    RepairsWritten(rs, pre + EncodeRepairs(rs, itoa) + more, |pre|, atoi, itoa);
  }

  /** A resources file's fields, written after any fields and followed by any, decode back. */
  lemma ResourcesRoundTrip(rs: seq<Resource>, pre: seq<Field>, more: seq<Field>, atoi: Atoi, itoa: int -> Field)
    requires Inverse(atoi, itoa)
    ensures |pre| + 3 * |rs| <= |pre + EncodeResources(rs, itoa) + more|
    ensures DecodeResources(pre + EncodeResources(rs, itoa) + more, |pre|, atoi, |rs|) == rs
  {
    WrittenInContext(pre, EncodeResources(rs, itoa), more);
    ResourcesWritten(rs, pre + EncodeResources(rs, itoa) + more, |pre|, atoi, itoa);
  }

  // ---- the loaders
  //
  // Each call of retrieveData returns the next element of `Fields(file)` (see
  // Tokenizer), so a loader walks that list with a position `pos`.

  /** The first `end` fields, the ones a loader reads, fit the tokenizer's buffer. */
  predicate FieldsFitUpTo(fields: seq<Field>, end: nat) {
    forall k :: 0 <= k < end && k < |fields| ==> |fields[k]| < BUFFER_SIZE
  }

  /** The position just past `n` requests whose fields start at `p`. */
  function RequestsEnd(f: seq<Field>, p: nat, atoi: Atoi, n: nat): (e: nat)
    requires RequestsFit(f, p, atoi, n)
    ensures p <= e && (n >= 1 ==> e <= |f|)
    decreases n
  {
    if n == 0 then p else RequestsEnd(f, p + RequestSize(f, p, atoi), atoi, n - 1)
  }

  /** The position just past `n` repairs whose fields start at `p`. */
  function RepairsEnd(f: seq<Field>, p: nat, atoi: Atoi, n: nat): (e: nat)
    requires RepairsFit(f, p, atoi, n)
    ensures p <= e && (n >= 1 ==> e <= |f|)
    decreases n
  {
    if n == 0 then p else RepairsEnd(f, p + RepairSize(f, p, atoi), atoi, n - 1)
  }

  /** Serial number, arrival hour, numOfRequests, then that many repair ids. */
  method ReadRequest(fields: seq<Field>, pos: nat, atoi: Atoi) returns (r: Request, next: nat)
    requires RequestFits(fields, pos, atoi)
    ensures r == RequestAt(fields, pos, atoi)
    ensures next == pos + RequestSize(fields, pos, atoi) <= |fields|
  {
    var serialNumber := atoi(fields[pos]);
    var time := atoi(fields[pos + 1]);
    var numOfRequests := atoi(fields[pos + 2]);
    var requests := [];
    var k := 0;
    while k < numOfRequests
      invariant 0 <= k <= Width(numOfRequests)
      invariant requests == Numbers(fields, pos + 3, k, atoi)
    {
      requests := requests + [atoi(fields[pos + 3 + k])];
      k := k + 1;
    }
    r, next := Request(serialNumber, time, requests), pos + 3 + k;
  }

  /** Id, name, hoursNeeded, numOfRes, then that many resource ids. */
  method ReadRepair(fields: seq<Field>, pos: nat, atoi: Atoi) returns (r: Repair, next: nat)
    requires RepairFits(fields, pos, atoi)
    ensures r == RepairAt(fields, pos, atoi)
    ensures next == pos + RepairSize(fields, pos, atoi) <= |fields|
  {
    var id := atoi(fields[pos]);
    var name := fields[pos + 1];
    var hoursNeeded := atoi(fields[pos + 2]);
    var numOfRes := atoi(fields[pos + 3]);
    var resources := [];
    var k := 0;
    while k < numOfRes
      invariant 0 <= k <= Width(numOfRes)
      invariant resources == Numbers(fields, pos + 4, k, atoi)
    {
      resources := resources + [atoi(fields[pos + 4 + k])];
      k := k + 1;
    }
    r, next := Repair(id, name, hoursNeeded, resources), pos + 4 + k;
  }

  /** One step of a record loop: the next request moves from the undecoded rest to the decoded prefix. */
  lemma RequestsStep(f: seq<Field>, p: nat, atoi: Atoi, m: nat, done: seq<Request>, all: seq<Request>)
    requires m >= 1 && RequestsFit(f, p, atoi, m) && all == done + DecodeRequests(f, p, atoi, m)
    ensures RequestFits(f, p, atoi) && RequestsFit(f, p + RequestSize(f, p, atoi), atoi, m - 1)
    ensures all == done + [RequestAt(f, p, atoi)] + DecodeRequests(f, p + RequestSize(f, p, atoi), atoi, m - 1)
  {
  }

  /** The record loop of readReq over the fields of the requests file. */
  method RequestLoop(fields: seq<Field>, amountOfCars: int, atoi: Atoi) returns (reqs: seq<Request>)
    requires RequestsFit(fields, 0, atoi, Width(amountOfCars))
    ensures reqs == DecodeRequests(fields, 0, atoi, Width(amountOfCars))
  {
    ghost var n := Width(amountOfCars);
    reqs := [];
    var pos: nat := 0;
    var i := 0;
    ghost var left := n;
    while i < amountOfCars
      invariant 0 <= i <= n
      invariant left == n - i && RequestsFit(fields, pos, atoi, left)
      invariant DecodeRequests(fields, 0, atoi, n) == reqs + DecodeRequests(fields, pos, atoi, left)
    {
      RequestsStep(fields, pos, atoi, left, reqs, DecodeRequests(fields, 0, atoi, n));
      var r, next := ReadRequest(fields, pos, atoi);
      reqs := reqs + [r];
      pos := next;
      i := i + 1;
      left := left - 1;
    }
  }

  /** One step of a record loop: the next repair moves from the undecoded rest to the decoded prefix. */
  lemma RepairsStep(f: seq<Field>, p: nat, atoi: Atoi, m: nat, done: seq<Repair>, all: seq<Repair>)
    requires m >= 1 && RepairsFit(f, p, atoi, m) && all == done + DecodeRepairs(f, p, atoi, m)
    ensures RepairFits(f, p, atoi) && RepairsFit(f, p + RepairSize(f, p, atoi), atoi, m - 1)
    ensures all == done + [RepairAt(f, p, atoi)] + DecodeRepairs(f, p + RepairSize(f, p, atoi), atoi, m - 1)
  {
  }

  /** The record loop of readRep; `amountOfRepairs` counts the records read. */
  method RepairLoop(fields: seq<Field>, size: int, atoi: Atoi) returns (amountOfRepairs: int, reps: seq<Repair>)
    requires RepairsFit(fields, 0, atoi, Width(size))
    ensures amountOfRepairs == Width(size)
    ensures reps == DecodeRepairs(fields, 0, atoi, Width(size))
  {
    ghost var n := Width(size);
    reps := [];
    amountOfRepairs := 0;
    var pos: nat := 0;
    var i := 0;
    ghost var left := n;
    while i < size
      invariant 0 <= i <= n && amountOfRepairs == i
      invariant left == n - i && RepairsFit(fields, pos, atoi, left)
      invariant DecodeRepairs(fields, 0, atoi, n) == reps + DecodeRepairs(fields, pos, atoi, left)
    {
      RepairsStep(fields, pos, atoi, left, reps, DecodeRepairs(fields, 0, atoi, n));
      var r, next := ReadRepair(fields, pos, atoi);
      reps := reps + [r];
      pos := next;
      amountOfRepairs := amountOfRepairs + 1;
      i := i + 1;
      left := left - 1;
    }
  }

  /** One step of a record loop: the next resource moves from the undecoded rest to the decoded prefix. */
  lemma ResourcesStep(f: seq<Field>, p: nat, atoi: Atoi, m: nat, done: seq<Resource>, all: seq<Resource>)
    requires m >= 1 && p + 3 * m <= |f| && all == done + DecodeResources(f, p, atoi, m)
    ensures p + 3 + 3 * (m - 1) <= |f|
    ensures all == done + [ResourceAt(f, p, atoi)] + DecodeResources(f, p + 3, atoi, m - 1)
  {
    assert DecodeResources(f, p, atoi, m) == [ResourceAt(f, p, atoi)] + DecodeResources(f, p + 3, atoi, m - 1);
  }

  /** The record loop of readRes: three fields per resource. */
  method ResourceLoop(fields: seq<Field>, size: int, atoi: Atoi) returns (amountOfResources: int, res: seq<Resource>)
    requires 3 * Width(size) <= |fields|
    ensures amountOfResources == Width(size)
    ensures res == DecodeResources(fields, 0, atoi, Width(size))
  {
    ghost var n := Width(size);
    res := [];
    amountOfResources := 0;
    var pos: nat := 0;
    var i := 0;
    ghost var left := n;
    while i < size
      invariant 0 <= i <= n && amountOfResources == i
      invariant left == n - i && pos + 3 * left <= |fields|
      invariant DecodeResources(fields, 0, atoi, n) == res + DecodeResources(fields, pos, atoi, left)
    {
      ResourcesStep(fields, pos, atoi, left, res, DecodeResources(fields, 0, atoi, n));
      var resID := atoi(fields[pos]);
      var name := fields[pos + 1];
      var garageQuantity := atoi(fields[pos + 2]);
      res := res + [Resource(resID, name, garageQuantity)];
      amountOfResources := amountOfResources + 1;
      pos := pos + 3;
      i := i + 1;
      left := left - 1;
    }
  }

  /**
   * readReq: counts the records with readLines, then reads that many. The
   * source keeps reading until the count is reached, so the file must hold
   * them all, and every field it reads must fit the tokenizer's buffer.
   */
  method ReadRequests(file: seq<byte>, atoi: Atoi) returns (amountOfCars: int, reqs: seq<Request>)
    requires RequestsFit(Fields(file), 0, atoi, Width(NewlineCount(file) - 1))
    requires FieldsFitUpTo(Fields(file), RequestsEnd(Fields(file), 0, atoi, Width(NewlineCount(file) - 1)))
    ensures amountOfCars == NewlineCount(file) - 1
    ensures reqs == DecodeRequests(Fields(file), 0, atoi, Width(amountOfCars))
  {
    amountOfCars := ReadLines(file);
    reqs := RequestLoop(Fields(file), amountOfCars, atoi);
  }

  /** readRep. */
  method ReadRepairs(file: seq<byte>, atoi: Atoi) returns (amountOfRepairs: int, reps: seq<Repair>)
    requires RepairsFit(Fields(file), 0, atoi, Width(NewlineCount(file) - 1))
    requires FieldsFitUpTo(Fields(file), RepairsEnd(Fields(file), 0, atoi, Width(NewlineCount(file) - 1)))
    ensures amountOfRepairs == Width(NewlineCount(file) - 1)
    ensures reps == DecodeRepairs(Fields(file), 0, atoi, amountOfRepairs)
  {
    var size := ReadLines(file);
    amountOfRepairs, reps := RepairLoop(Fields(file), size, atoi);
  }

  /** readRes. */
  method ReadResources(file: seq<byte>, atoi: Atoi) returns (amountOfResources: int, res: seq<Resource>)
    requires 3 * Width(NewlineCount(file) - 1) <= |Fields(file)|
    requires FieldsFitUpTo(Fields(file), 3 * Width(NewlineCount(file) - 1))
    ensures amountOfResources == Width(NewlineCount(file) - 1)
    ensures res == DecodeResources(Fields(file), 0, atoi, amountOfResources)
  {
    var size := ReadLines(file);
    amountOfResources, res := ResourceLoop(Fields(file), size, atoi);
  }
}
