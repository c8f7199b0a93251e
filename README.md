# Garage simulation: resource accounting, clock and input loaders

`HW4.c` simulates a garage. Cars arrive at scheduled hours, and each car runs an
ordered list of repairs. Each repair needs a bundle of shared resource units,
and every resource type has a limited quantity guarded by a counting semaphore.
A background thread advances a simulated clock. Three tab- and
newline-separated input files describe the cars, the repair catalog and the
resource table.

This project models the sequential core of that program in Dafny and proves
properties of it:

- `Pool`: the resource availability table.
  - A class `ResourcePool` holds the semaphore counters in an array.
  - The operations are initialisation, `waitTillAvailable`,
    `releaseResources`, the acquire/record/release body of `repairPlatform`,
    and the per-car repair loop of `garage`.
  - Value-level functions (`AcquireOne`, `AcquireAll`, `PostOne`,
    `ReleaseAll`) specify those methods. Lemmas about them state:
    - what each operation does to every counter;
    - that acquiring then releasing a bundle restores the table;
    - that the accounting invariant (`Accounted`) is preserved.
  - A ghost multiset `held` records the units currently taken, so every
    counter equals its quantity less the units held.
- `Lookup`: the first-match search by id used to find a repair in the catalog
  and a resource in the table.
- `SimClock`: the `timer`/`Day` state machine of the timer thread. It has a
  `Tick` method, and a closed form for the clock after `k` ticks.
- `Tokenizer`: `retrieveData` (one field per call) and `readLines` (newline
  count minus one), over a `seq<byte>` holding the file's contents.
- `Decoders`: the record layouts of the three files and the three loaders.
  - Round-trip lemmas show that a record written in its layout takes exactly
    3 + n, 4 + n or 3 fields and decodes back to itself.
- `Records`: the three record types.

Each call of `retrieveData` on the open file returns the next element of
`Tokenizer.Fields(file)`. The loaders are therefore modelled as walking that
list with a position.

Each iteration of the timer loop first turns an hour of 24 into 0 on a new
day, then sleeps for a second, then increments the hour. At the loop head,
after the first iteration, the hour is in 1..24 (`SimClock.TickedRange`).
During the sleep of iteration `k` the hour is `(k-1) % 24`, in 0..23, and the
day is `1 + (k-1) / 24` (`SimClock.SleepingClosedForm`). Hour 0 recurs every
day, and hour 24 lasts only an instant. The arrival gate and the timestamps
of the log messages read the values held during the sleep.

## Model

| member | source | states |
|---|---|---|
| Lookup.IndexOf | HW4.c:161-167 | The first index whose id is `k`: all earlier ids differ, and the result is `|keys|` exactly when no id matches. |
| Lookup.FindRepair | HW4.c:161-167 | For an id present in the catalog, returns an entry with that id, and no earlier entry has it. |
| Pool.AcquireOne | HW4.c:198-209 | `waitTillAvailable(r)` on the counters. Its own contract keeps one counter per entry; `Pool.AcquireOneEffect` states the change to each counter. |
| Pool.PostOne | HW4.c:214-219 | One pass of the release loop adds one unit to every entry whose id matches and leaves every other entry as it was. |
| Pool.AcquireAll | HW4.c:174-181 | The waits of a bundle, in order. Its own contract keeps one counter per entry; `Pool.AcquireAllEffect` states the change to each counter. |
| Pool.ReleaseAll | HW4.c:211-221 | `releaseResources` on the counters. Its own contract keeps one counter per entry; `Pool.ReleaseAllEffect` states the change to each counter. |
| Pool.AcquireOneEffect | HW4.c:198-209 | A wait takes one unit from the first entry with the requested id and none from any other. An id with no entry changes nothing. |
| Pool.AcquireAllEffect | HW4.c:174-181 | Acquiring a bundle lowers the first entry of each id by that id's number of occurrences in the bundle. Other entries are unchanged. |
| Pool.ReleaseAllEffect | HW4.c:211-221 | Releasing a list raises every entry by the number of occurrences of its id in the list. |
| Pool.AcquireReleaseEffect | HW4.c:174-188 | Acquiring then releasing the same list restores every entry that is first with its id. A later entry with a repeated id gains the bundle's occurrences of it. |
| Pool.RepairRoundTrip | HW4.c:174-188 | With distinct ids, releasing the recorded bundle after acquiring it leaves every counter as it was. |
| Pool.AffordableIffNeverBlocks | HW4.c:174-181 | A bundle can be acquired unit by unit without any wait finding its counter at zero exactly when each id's first entry holds at least that id's occurrences in the bundle. Both directions are proved. |
| Pool.AffordableHead | HW4.c:174-181 | For an affordable bundle, the first wait finds its counter positive, and the rest of the bundle stays affordable after it. |
| Pool.AffordableCons | HW4.c:174-181 | A bundle whose first wait finds its counter positive, and whose rest is affordable after that wait, is affordable. |
| Pool.HoldingBounds | HW4.c:174-186 | While an affordable bundle is held, every counter stays between 0 and its previous value. |
| Pool.AfterRepairs | HW4.c:139-144 | A car's repairs run one after another, each acquiring then releasing its bundle. Its own contract keeps one counter per entry; `Pool.CarRunRestores` states that the table is restored. |
| Pool.CarRunRestores | HW4.c:139-143 | With distinct ids, a car's whole repair list leaves the table unchanged. |
| Pool.MatchedCount | HW4.c:200-205 | The units a list actually takes: each id that has an entry, as often as it occurs. Ids with no entry take nothing. |
| Pool.IndexOfIsFirst | HW4.c:200-206 | The search by id stops at entry `i` exactly when `i` has that id and no earlier entry does. |
| Pool.AcquireStep | HW4.c:174-177 | A bundle that never blocks finds the next wait's counter positive, and the rest of the bundle still never blocks. |
| Pool.MatchedStep | HW4.c:174-177 | Extending the acquired prefix by one element extends the held units by that element when it has an entry. |
| Pool.AcquiringStep | HW4.c:174-177 | Part-way through a bundle that never blocks, the next wait finds its counter positive, and the state after it is one unit further through the bundle. |
| Pool.AccountedInit | HW4.c:103-105 | Freshly initialised semaphores, with nothing held, satisfy the accounting invariant: distinct ids, and each counter equals its quantity less the units held, within 0..quantity. |
| Pool.AccountedAcquire | HW4.c:198-209 | A wait that does not block keeps the accounting invariant, with the unit taken added to what is held. |
| Pool.AccountedRelease | HW4.c:211-221 | Releasing units that are held keeps the accounting invariant, with those units removed from what is held. |
| Pool.ResourcePool.constructor | HW4.c:103-105 | Each semaphore starts at its entry's quantity, nothing is held, and the invariant holds. |
| Pool.ResourcePool.WaitTillAvailable | HW4.c:198-209 | The counters become `AcquireOne` of the old counters. The unit is held when the id has an entry. The invariant is kept. |
| Pool.ResourcePool.PostMatching | HW4.c:215-219 | The inner release loop: the counters become `PostOne` of the old counters. |
| Pool.ResourcePool.ReleaseResources | HW4.c:211-221 | The counters become `ReleaseAll` of the old counters, the released units are no longer held, and the invariant is kept. |
| Pool.ResourcePool.AcquireBundle | HW4.c:172-184 | For an affordable bundle: one wait per element, in order, with each element recorded. The counters become `AcquireAll` of the old counters, the recorded list equals the bundle, and the bundle's matched units are held. |
| Pool.ResourcePool.RepairPlatform | HW4.c:169-192 | For a catalog id whose bundle is affordable: returns the first matching repair's bundle as recorded, and leaves the counters and the held units as they were. |
| Pool.ResourcePool.Garage | HW4.c:124-149 | Runs the car's repairs in file order. The log holds each repair's bundle. The table is unchanged afterwards. |
| SimClock.Step | HW4.c:301-310 | One iteration of the timer loop: an hour in 0..24 becomes one in 1..24, and the day advances only when the hour wraps from 24. |
| SimClock.TicksClosedForm | HW4.c:301-310 | Starting from `timer = 0, Day = 1` (the globals at HW4.c:83), after `k >= 1` ticks `timer == (k-1) % 24 + 1` and `Day == 1 + (k-1) / 24`. |
| SimClock.TickedRange | HW4.c:301-310 | At the loop head after any tick the hour is in 1..24 and the day is at least 1. |
| SimClock.SleepingClosedForm | HW4.c:301-310 | While iteration `k >= 1` sleeps, after the wrap of an hour of 24, the hour is `(k-1) % 24`, in 0..23, and `Day` is `1 + (k-1) / 24`. |
| SimClock.Clock.constructor | HW4.c:83 | The clock starts at `timer = 0`, `Day = 1`. |
| SimClock.Clock.Tick | HW4.c:302-308 | The new `(timer, Day)` is `Step` of the old one, and the tick counter advances by one. |
| SimClock.Clock.Run | HW4.c:301-310 | After `k` more iterations the clock satisfies the closed form for the total number of ticks. |
| Tokenizer.KeptBytes | HW4.c:320 | A field is never longer than the bytes read for it. |
| Tokenizer.SepFrom | HW4.c:319-322 | The first separator at or after a position, or the end of input. No byte before it is a separator. |
| Tokenizer.Terminator | HW4.c:317-322 | The separator that ends a field: the first tab or newline after the first byte read, or the first byte itself when it is a lone separator at the end of the input. |
| Tokenizer.Token | HW4.c:312-325 | The field returned for the input: no tab, newline or NUL in it, and no longer than the bytes before its terminator. |
| Tokenizer.Rest | HW4.c:312-325 | The input left after a call is a proper suffix of the input. |
| Tokenizer.RetrieveData | HW4.c:312-325 | The returned field is `Token(input)` and the remaining input is `Rest(input)`, including an empty field for a lone separator at the end of the input. Excluded: input on which the loop never ends, and a field that would overflow the 255-byte buffer. |
| Tokenizer.KeptBytesClean | HW4.c:320 | Every byte appended to the field buffer is neither a tab, a newline nor NUL. |
| Tokenizer.KeptBytesIdentity | HW4.c:320 | Bytes that are all neither separators nor NUL pass into the buffer unchanged. |
| Tokenizer.Consumption | HW4.c:317-322 | The call consumes a prefix that ends in a separator, of at least two bytes except for a lone separator ending the input. Only its first byte may also be a separator, so at most one leading separator is skipped. The field is formed from the bytes before the terminating separator. |
| Tokenizer.LoneSeparator | HW4.c:317-322 | A single separator byte left at the end of the input reads as an empty field and consumes the input. |
| Tokenizer.TokenRoundTrip | HW4.c:312-325 | A non-empty clean field followed by a separator is read back exactly, with the rest of the input left intact. |
| Tokenizer.FieldsOfJoin | HW4.c:312-325 | Splitting a file written as clean, non-empty fields, each followed by a separator, gives those fields back in order. |
| Tokenizer.Fields | HW4.c:312-325 | The fields of successive calls: at most one per byte of input, none holding a tab, newline or NUL. |
| Tokenizer.ReadLines | HW4.c:327-336 | The result is the number of newline bytes in the file minus one. |
| Decoders.Numbers | HW4.c:261-263 | `n` numbers read from consecutive fields, the k-th from field `p + k`. |
| Decoders.Shown | HW4.c:261-263 | Writing a list of numbers gives one field per number, in order. |
| Decoders.NumbersOfShown | HW4.c:261-263 | Reading back numbers written one per field gives the same numbers, whatever fields surround them. |
| Decoders.RequestAt | HW4.c:256-263 | The request at field `p`: serial number from field `p`, arrival hour from `p + 1`, and as many repair ids as field `p + 2` says, the record taking 3 more fields than that. |
| Decoders.RepairAt | HW4.c:278-289 | The repair at field `p`: id from field `p`, the name as read from `p + 1`, hours from `p + 2`, and as many resource ids as field `p + 3` says, the record taking 4 more fields than that. |
| Decoders.ResourceAt | HW4.c:233-237 | The resource at field `p`: id, name as read, and quantity from three consecutive fields. |
| Decoders.DecodeRequests | HW4.c:255-265 | Exactly `n` requests. `Decoders.RequestsStep` states how each is decoded where the previous one's fields end. |
| Decoders.DecodeRepairs | HW4.c:277-292 | Exactly `n` repairs. `Decoders.RepairsStep` states how each is decoded where the previous one's fields end. |
| Decoders.DecodeResources | HW4.c:231-242 | `n` resources, the k-th decoded from the three fields starting at `p + 3k`. |
| Decoders.RequestRoundTrip | HW4.c:256-264 | A request written in its layout at any position of the field list fits there, takes exactly 3 + numOfRequests fields, and decodes to itself. |
| Decoders.RepairRoundTrip | HW4.c:278-289 | A repair written in its layout at any position of the field list fits there, takes exactly 4 + numOfRes fields, and decodes to itself. |
| Decoders.ResourceRoundTrip | HW4.c:233-237 | A resource written in its layout at any position takes 3 fields and decodes to itself. |
| Decoders.RequestsLaidOutOfWritten | HW4.c:255-265 | A requests file written as one block places each request's fields directly after the previous request's. |
| Decoders.RepairsLaidOutOfWritten | HW4.c:277-292 | A repairs file written as one block places each repair's fields directly after the previous repair's. |
| Decoders.RequestsCons | HW4.c:255-265 | A request at field `p`, followed by requests that decode to `tail` right after its fields, decodes with them to the request followed by `tail`. |
| Decoders.RepairsCons | HW4.c:277-292 | A repair at field `p`, followed by repairs that decode to `tail` right after its fields, decodes with them to the repair followed by `tail`. |
| Decoders.RequestsWrittenHead | HW4.c:256-264 | The first of the requests laid out from `p` fits and decodes to itself, and the others are laid out right after its fields. |
| Decoders.RepairsWrittenHead | HW4.c:278-289 | The first of the repairs laid out from `p` fits and decodes to itself, and the others are laid out right after its fields. |
| Decoders.RequestsWritten | HW4.c:255-265 | Requests laid out one after another from any position fit there and decode back to the same list. |
| Decoders.RepairsWritten | HW4.c:277-292 | Repairs laid out one after another from any position fit there and decode back to the same list. |
| Decoders.ResourcesWritten | HW4.c:231-242 | Resources written one after another from any position take three fields each and decode back to the same list. |
| Decoders.RequestsRoundTrip | HW4.c:255-265 | Any list of requests written one after another, after any fields and followed by any fields, decodes back to the same list. |
| Decoders.RepairsRoundTrip | HW4.c:277-292 | Any list of repairs written one after another, after any fields and followed by any fields, decodes back to the same list. |
| Decoders.ResourcesRoundTrip | HW4.c:231-242 | Any list of resources written one after another, after any fields and followed by any fields, decodes back to the same list. |
| Decoders.ReadRequest | HW4.c:256-263 | Reads one request starting at field `pos`: the result is the request decoded there, and the reader ends 3 + numOfRequests fields later. |
| Decoders.ReadRepair | HW4.c:278-289 | Reads one repair starting at field `pos`: the result is the repair decoded there, and the reader ends 4 + numOfRes fields later. |
| Decoders.RequestsStep | HW4.c:255-265 | One pass of the readReq loop moves the next request from the undecoded fields to the decoded prefix and advances past its fields. |
| Decoders.RepairsStep | HW4.c:277-292 | One pass of the readRep loop moves the next repair from the undecoded fields to the decoded prefix and advances past its fields. |
| Decoders.ResourcesStep | HW4.c:231-242 | One pass of the readRes loop moves the next resource from the undecoded fields to the decoded prefix and advances three fields. |
| Decoders.RequestLoop | HW4.c:255-265 | The record loop of readReq returns the first `amountOfCars` requests of the field list (none when the count is negative). |
| Decoders.RepairLoop | HW4.c:277-292 | The record loop of readRep returns the first `size` repairs and sets `amountOfRepairs` to how many were read. |
| Decoders.ResourceLoop | HW4.c:231-242 | The record loop of readRes returns the first `size` resources, three fields each, and sets `amountOfResources` to how many were read. |
| Decoders.ReadRequests | HW4.c:247-267 | `amountOfCars` is the newline count minus one, and the requests are that many records decoded from the file's fields. |
| Decoders.ReadRepairs | HW4.c:269-294 | `amountOfRepairs` is the number of records read, and the repairs are that many records decoded from the file's fields. |
| Decoders.ReadResources | HW4.c:223-244 | `amountOfResources` is the number of records read, and the resources are that many records decoded from the file's fields. |

## Left out

- Threads, the mutex and `pthread_join` are not modelled.
  - The mutex serialises the acquisition phases of different repairs, so
    each phase is modelled as one atomic step.
  - Within one phase, the waits of a bundle run as parallel threads. They
    end in the same state in any order, so the model runs them one after
    another in bundle order.
  - Interleaving between cars is not modelled.
- A `sem_wait` on a counter at zero, which blocks until another repair posts,
  becomes a precondition that no wait blocks (`Affordable` and
  `NeverBlocks`). Blocking itself is not modelled.
- The busy-wait arrival gate in `garage` (HW4.c:131-133) and every `sleep`
  are real-time waits that change no modelled state.
- File I/O (`open`, `read`) is replaced by a `seq<byte>` holding the file's
  contents. `atoi` is a parameter of the loaders, because its parsing is not
  part of this model.
- `malloc`, `free`, `strcpy`, `printf`, `perror` and `exit` are not modelled,
  and neither are `freeMemory` and the rest of `main`.
- The loaded tables are immutable after loading, so they are `seq` values
  rather than arrays.
  - A negative record count makes a loader read no records. The source would
    instead call `malloc` with a negative size.
  - Name fields are kept as the bytes read, without the copy through a
    256-byte temporary buffer.
- Pool.ResourcePool.constructor: requires distinct resource ids and
  non-negative quantities; the source assumes neither.
  - With repeated ids, `waitTillAvailable` takes from the first entry only,
    while `releaseResources` posts to every matching entry.
  - `Pool.AcquireReleaseEffect` states the resulting growth of the later
    entries, for which no counter invariant holds.
  - A negative quantity makes `sem_init` fail.
- Tokenizer.RetrieveData: requires that the read stops and that the field is
  shorter than the 255-byte buffer.
  - The read stops when a separator follows the first byte, or when the
    input left is a single separator byte, which gives an empty field.
  - In the source a read at the end of the file leaves the byte held
    unchanged, so with a non-separator as the last byte held the loop never
    ends. On an empty input the first byte held is uninitialised.
  - A longer field overflows the buffer.
- A NUL byte read inside a field is dropped, which is what a one-byte
  `strncat` does.
- Lookup.FindRepair: requires the id to be in the catalog, because the source
  indexes past the catalog when no repair matches.
- Decoders.ReadRequests, Decoders.ReadRepairs and Decoders.ReadResources:
  require the file to hold every record its newline count announces, because
  the source would otherwise read past the end of the file. They also require
  every field the record loop reads to fit the 255-byte buffer, which the
  source would overflow. Fields after the last record read are unconstrained.
- Pool.AcquireOne: its own contract states only that the table keeps one
  counter per entry. The change to each counter is stated by
  `Pool.AcquireOneEffect`.
- Pool.AcquireAll: its own contract states only that the table keeps one
  counter per entry. The change to each counter is stated by
  `Pool.AcquireAllEffect`.
- Pool.ReleaseAll: its own contract states only that the table keeps one
  counter per entry. The change to each counter is stated by
  `Pool.ReleaseAllEffect`.
- Decoders.DecodeRequests: its own contract states only the number of
  requests. `Decoders.RequestsStep` and `Decoders.RequestsCons` state how
  they are decoded one after another.
- Decoders.DecodeRepairs: its own contract states only the number of
  repairs. `Decoders.RepairsStep` and `Decoders.RepairsCons` state how they
  are decoded one after another.
- Pool.AfterRepairs: its own contract states only that the table keeps one
  counter per entry. The restored table is stated by `Pool.CarRunRestores`.
- The sleep inside each iteration of the timer loop is not modelled as a
  wait. `SimClock.Sleeping` is the state the other threads read during it.
