/** What the driver and the device of a split virtqueue agree on, with the requests in flight as
    a map from the head descriptor of each. */
module VirtioSpec {
  import opened Common

  const NUM := 8
  const WRAP := 0x1_0000

  datatype Addr = Nowhere | OpAt(i: nat) | DataOf(b: nat) | StatusAt(i: nat)

  datatype Desc = Desc(addr: Addr, hasNext: bool, deviceWrites: bool, next: nat)

  const ZERO := Desc(Nowhere, false, false, 0)

  datatype Op = Op(write: bool, sector: nat)

  datatype Info = Info(b: Option<nat>, status: nat)

  /** In the avail ring; taken by the device; in the used ring; seen by the interrupt handler. */
  datatype Phase = Queued | Taken | Posted | Seen

  /** A request: its second and third descriptors, its buffer, and what is asked. */
  datatype Flight = Flight(mid: nat, last: nat, b: nat, block: nat, write: bool, phase: Phase)

  type Flights = map<nat, Flight>

  /** Descriptor i belongs to the request with head h. */
  predicate Has(flights: Flights, h: nat, i: int) {
    h in flights && (i == h || i == flights[h].mid || i == flights[h].last)
  }

  /** The three descriptors of a request are its own, are linked, and say what was asked. */
  ghost predicate FlightOk(flights: Flights, h: nat, desc: seq<Desc>, ops: seq<Op>, info: seq<Info>, free: seq<bool>)
    requires h in flights && |desc| == |ops| == |info| == |free| == NUM
  {
    var f := flights[h];
    && h < NUM && f.mid < NUM && f.last < NUM && h != f.mid && h != f.last && f.mid != f.last
    && !free[h] && !free[f.mid] && !free[f.last]
    && desc[h] == Desc(OpAt(h), true, false, f.mid)
    && desc[f.mid] == Desc(DataOf(f.b), true, !f.write, f.last)
    && desc[f.last] == Desc(StatusAt(h), false, true, 0)
    && f.block < 0x8000_0000 && ops[h] == Op(f.write, f.block * 2)
    && info[h].b == Some(f.b) && info[h].status == if f.phase.Queued? || f.phase.Taken? then 0xff else 0
  }

  /** Two requests share neither descriptors nor the buffer. */
  ghost predicate Apart(flights: Flights, g: nat, h: nat)
    requires g in flights && h in flights
  {
    g != h ==> (forall i :: Has(flights, g, i) ==> !Has(flights, h, i)) && flights[g].b != flights[h].b
  }

  ghost predicate Owned(flights: Flights, i: int) {
    exists h :: Has(flights, h, i)
  }

  /** A descriptor that is not free belongs to a request. */
  ghost predicate FreeOk(flights: Flights, free: seq<bool>, i: int) {
    0 <= i < |free| && !free[i] ==> Owned(flights, i)
  }

  ghost predicate FlightsOk(flights: Flights, desc: seq<Desc>, ops: seq<Op>, info: seq<Info>, free: seq<bool>) {
    && |desc| == |ops| == |info| == |free| == NUM
    && (forall h :: h in flights ==> FlightOk(flights, h, desc, ops, info, free))
    && (forall g, h :: g in flights && h in flights ==> Apart(flights, g, h))
    && (forall i :: 0 <= i < NUM ==> FreeOk(flights, free, i))
  }

  /** The buffers that wait are those of requests not seen yet. */
  ghost predicate BusyOk(flights: Flights, busy: set<nat>) {
    && (forall h :: h in flights ==> (flights[h].b in busy <==> !flights[h].phase.Seen?))
    && (forall b :: b in busy ==> HasBuffer(flights, b))
  }

  ghost predicate HasBuffer(flights: Flights, b: nat) {
    exists h :: h in flights && flights[h].b == b
  }

  /** `queue` is exactly the requests in a phase, once each, and the ring holds them from slot
      `base` on. */
  ghost predicate RingOk(flights: Flights, phase: Phase, queue: seq<nat>, ring: seq<nat>, base: nat) {
    && |ring| == NUM && |queue| <= NUM
    && (forall k :: 0 <= k < |queue| ==> Queuing(flights, phase, queue[k]) && SlotHolds(ring, base, k, queue[k]))
    && (forall j, k :: 0 <= j < k < |queue| ==> queue[j] != queue[k])
    && (forall h :: h in flights && flights[h].phase == phase ==> h in queue)
  }

  predicate Queuing(flights: Flights, phase: Phase, h: nat) {
    h in flights && flights[h].phase == phase
  }

  predicate SlotHolds(ring: seq<nat>, base: nat, k: int, h: nat) {
    0 <= k && |ring| == NUM && ring[(base + k) % NUM] == h
  }

  /** A 16-bit index that has counted to `count`. */
  predicate IndexOf(idx: nat, count: nat) {
    idx == count % WRAP
  }

  /** It names the same slot as the unbounded count. */
  lemma SlotOf(idx: nat, count: nat)
    requires IndexOf(idx, count)
    ensures idx % NUM == count % NUM
  {
  }

  lemma IndexStep(idx: nat, count: nat)
    requires IndexOf(idx, count)
    ensures IndexOf((idx + 1) % WRAP, count + 1)
  {
  }

  /** Two indices differ exactly when the counts do. */
  lemma IndicesDiffer(i: nat, low: nat, j: nat, high: nat)
    requires IndexOf(i, low) && IndexOf(j, high) && low <= high < low + WRAP
    ensures i != j <==> low != high
  {
  }

  lemma SlotsDiffer(base: nat, j: nat, k: nat)
    requires j < k < j + NUM
    ensures (base + j) % NUM != (base + k) % NUM
  {
  }

  /** A head goes in at the end of the ring; nothing waiting is overwritten. */
  lemma RingPush(before: Flights, flights: Flights, phase: Phase, queue: seq<nat>, ring: seq<nat>, base: nat, h: nat)
    requires RingOk(before, phase, queue, ring, base) && Queuing(flights, phase, h) && h !in queue && |queue| < NUM
    requires forall g :: g in queue ==> Queuing(flights, phase, g)
    requires forall g :: Queuing(flights, phase, g) && g != h ==> Queuing(before, phase, g)
    ensures RingOk(flights, phase, queue + [h], ring[(base + |queue|) % NUM := h], base)
  {
    var queue', ring' := queue + [h], ring[(base + |queue|) % NUM := h];
    forall k | 0 <= k < |queue'| ensures Queuing(flights, phase, queue'[k]) && SlotHolds(ring', base, k, queue'[k]) {
      if k < |queue| {
        assert queue[k] in queue && SlotHolds(ring, base, k, queue[k]);
        SlotsDiffer(base, k, |queue|);
      }
    }
    forall g | g in flights && flights[g].phase == phase ensures g in queue' {
      assert Queuing(flights, phase, g);
      assert g != h ==> g in queue;
      assert queue'[|queue|] == h;
    }
  }

  /** The first head goes out. */
  lemma RingPop(before: Flights, flights: Flights, phase: Phase, queue: seq<nat>, ring: seq<nat>, base: nat)
    requires RingOk(before, phase, queue, ring, base) && queue != []
    requires forall g :: Queuing(flights, phase, g) <==> Queuing(before, phase, g) && g != queue[0]
    ensures RingOk(flights, phase, queue[1..], ring, base + 1)
  {
    forall k | 0 <= k < |queue| - 1
      ensures Queuing(flights, phase, queue[1..][k]) && SlotHolds(ring, base + 1, k, queue[1..][k])
    {
      assert SlotHolds(ring, base, k + 1, queue[k + 1]);
      assert base + 1 + k == base + (k + 1);
    }
    forall g | g in flights && flights[g].phase == phase ensures g in queue[1..] {
      assert Queuing(flights, phase, g);
      var k :| 0 <= k < |queue| && queue[k] == g;
      assert queue[1..][k - 1] == g;
    }
  }

  /** A change that leaves the phase alone leaves its ring alone. */
  lemma RingSame(before: Flights, flights: Flights, phase: Phase, queue: seq<nat>, ring: seq<nat>, base: nat)
    requires RingOk(before, phase, queue, ring, base)
    requires forall g :: Queuing(flights, phase, g) <==> Queuing(before, phase, g)
    ensures RingOk(flights, phase, queue, ring, base)
  {
    forall h | h in flights && flights[h].phase == phase ensures h in queue { assert Queuing(flights, phase, h); }
  }

  lemma {:induction false} Upto(n: nat) returns (r: set<int>)
    ensures |r| == n && forall i :: i in r <==> 0 <= i < n
  {
    if n == 0 {
      r := {};
    } else {
      r := Upto(n - 1);
      r := r + {n - 1};
    }
  }

  /** A queue of distinct descriptors that misses one has room. */
  lemma Room(queue: seq<nat>, h: nat)
    requires h < NUM && h !in queue && forall k :: 0 <= k < |queue| ==> queue[k] < NUM
    requires forall j, k :: 0 <= j < k < |queue| ==> queue[j] != queue[k]
    ensures |queue| < NUM
  {
    var all := Upto(NUM);
    Pigeonhole(queue + [h], {}, all);
  }

  // ---- Both rings ----

  ghost predicate RingsOk(flights: Flights, waiting: seq<nat>, availRing: seq<nat>, taken: nat,
                          finished: seq<nat>, usedRing: seq<nat>, seen: nat, inside: set<nat>)
  {
    && RingOk(flights, Queued, waiting, availRing, taken) && RingOk(flights, Posted, finished, usedRing, seen)
    && (forall h :: h in inside <==> Queuing(flights, Taken, h))
  }

  /** Pushed, taken, posted, seen: what lies between two counts is in a queue or in the device. */
  predicate Counts(waiting: nat, inside: nat, finished: nat, pushed: nat, taken: nat, posted: nat, seen: nat) {
    pushed == taken + waiting && taken == posted + inside && posted == seen + finished
  }

  lemma RingSizes(flights: Flights, waiting: seq<nat>, availRing: seq<nat>, taken: nat,
                  finished: seq<nat>, usedRing: seq<nat>, seen: nat, inside: set<nat>)
    requires RingsOk(flights, waiting, availRing, taken, finished, usedRing, seen, inside)
    ensures |waiting| <= NUM && |finished| <= NUM && |availRing| == |usedRing| == NUM
  {
  }

  lemma Heads(flights: Flights, desc: seq<Desc>, ops: seq<Op>, info: seq<Info>, free: seq<bool>, phase: Phase,
              queue: seq<nat>, ring: seq<nat>, base: nat, h: nat)
    requires FlightsOk(flights, desc, ops, info, free) && RingOk(flights, phase, queue, ring, base)
    requires h < NUM && !Queuing(flights, phase, h)
    ensures h !in queue && |queue| < NUM
  {
    hide Apart, FreeOk;
    forall k | 0 <= k < |queue| ensures queue[k] < NUM && queue[k] != h {
      assert Queuing(flights, phase, queue[k]);
      assert FlightOk(flights, queue[k], desc, ops, info, free);
    }
    Room(queue, h);
  }

  lemma PushRings(flights: Flights, h: nat, f: Flight, desc: seq<Desc>, ops: seq<Op>, info: seq<Info>,
                  free: seq<bool>, waiting: seq<nat>, availRing: seq<nat>, taken: nat,
                  finished: seq<nat>, usedRing: seq<nat>, seen: nat, inside: set<nat>)
    requires RingsOk(flights, waiting, availRing, taken, finished, usedRing, seen, inside)
             && FlightsOk(flights, desc, ops, info, free)
    requires h !in flights && h < NUM && f.phase.Queued?
    ensures |availRing| == NUM
    ensures RingsOk(flights[h := f], waiting + [h], availRing[(taken + |waiting|) % NUM := h], taken, finished,
                    usedRing, seen, inside)
  {
    hide FlightsOk, RingOk;
    Heads(flights, desc, ops, info, free, Queued, waiting, availRing, taken, h);
    WaitingAre(flights, Queued, waiting, availRing, taken);
    RingPush(flights, flights[h := f], Queued, waiting, availRing, taken, h);
    RingSame(flights, flights[h := f], Posted, finished, usedRing, seen);
  }

  lemma WaitingAre(flights: Flights, phase: Phase, queue: seq<nat>, ring: seq<nat>, base: nat)
    requires RingOk(flights, phase, queue, ring, base)
    ensures |ring| == NUM && forall g :: g in queue ==> Queuing(flights, phase, g)
    ensures queue != [] ==> ring[base % NUM] == queue[0]
  {
    assert queue != [] ==> SlotHolds(ring, base, 0, queue[0]);
  }

  lemma TakeRings(flights: Flights, waiting: seq<nat>, availRing: seq<nat>, taken: nat,
                  finished: seq<nat>, usedRing: seq<nat>, seen: nat, inside: set<nat>)
    requires RingsOk(flights, waiting, availRing, taken, finished, usedRing, seen, inside) && waiting != []
    ensures var h := waiting[0];
            && |availRing| == NUM && availRing[taken % NUM] == h && h in flights && flights[h].phase.Queued?
            && h !in inside
            && RingsOk(flights[h := flights[h].(phase := Taken)], waiting[1..], availRing, taken + 1, finished,
                       usedRing, seen, inside + {h})
  {
    var h := waiting[0];
    WaitingAre(flights, Queued, waiting, availRing, taken);
    hide RingOk;
    assert Queuing(flights, Queued, h);
    var flights' := flights[h := flights[h].(phase := Taken)];
    RingPop(flights, flights', Queued, waiting, availRing, taken);
    RingSame(flights, flights', Posted, finished, usedRing, seen);
  }

  lemma InsideIs(flights: Flights, waiting: seq<nat>, availRing: seq<nat>, taken: nat,
                 finished: seq<nat>, usedRing: seq<nat>, seen: nat, inside: set<nat>, h: nat)
    requires RingsOk(flights, waiting, availRing, taken, finished, usedRing, seen, inside) && h in inside
    ensures h in flights && flights[h].phase.Taken?
  {
    assert Queuing(flights, Taken, h);
  }

  lemma PostRings(flights: Flights, h: nat, desc: seq<Desc>, ops: seq<Op>, info: seq<Info>, free: seq<bool>,
                  waiting: seq<nat>, availRing: seq<nat>, taken: nat,
                  finished: seq<nat>, usedRing: seq<nat>, seen: nat, inside: set<nat>)
    requires RingsOk(flights, waiting, availRing, taken, finished, usedRing, seen, inside)
             && FlightsOk(flights, desc, ops, info, free)
    requires h in flights && h < NUM && flights[h].phase.Taken?
    ensures |usedRing| == NUM
    ensures RingsOk(flights[h := flights[h].(phase := Posted)], waiting, availRing, taken, finished + [h],
                    usedRing[(seen + |finished|) % NUM := h], seen, inside - {h})
  {
    hide FlightsOk, RingOk;
    var flights' := flights[h := flights[h].(phase := Posted)];
    Heads(flights, desc, ops, info, free, Posted, finished, usedRing, seen, h);
    WaitingAre(flights, Posted, finished, usedRing, seen);
    RingPush(flights, flights', Posted, finished, usedRing, seen, h);
    RingSame(flights, flights', Queued, waiting, availRing, taken);
  }

  lemma SeenRings(flights: Flights, waiting: seq<nat>, availRing: seq<nat>, taken: nat,
                  finished: seq<nat>, usedRing: seq<nat>, seen: nat, inside: set<nat>)
    requires RingsOk(flights, waiting, availRing, taken, finished, usedRing, seen, inside) && finished != []
    ensures var h := finished[0];
            && |usedRing| == NUM && usedRing[seen % NUM] == h && h in flights && flights[h].phase.Posted?
            && RingsOk(flights[h := flights[h].(phase := Seen)], waiting, availRing, taken, finished[1..], usedRing,
                       seen + 1, inside)
  {
    var h := finished[0];
    WaitingAre(flights, Posted, finished, usedRing, seen);
    hide RingOk;
    assert Queuing(flights, Posted, h);
    var flights' := flights[h := flights[h].(phase := Seen)];
    RingPop(flights, flights', Posted, finished, usedRing, seen);
    RingSame(flights, flights', Queued, waiting, availRing, taken);
  }

  lemma DropRings(flights: Flights, h: nat, waiting: seq<nat>, availRing: seq<nat>, taken: nat,
                  finished: seq<nat>, usedRing: seq<nat>, seen: nat, inside: set<nat>)
    requires RingsOk(flights, waiting, availRing, taken, finished, usedRing, seen, inside) && h in flights
             && flights[h].phase.Seen?
    ensures RingsOk(flights - {h}, waiting, availRing, taken, finished, usedRing, seen, inside)
  {
    hide RingOk;
    RingSame(flights, flights - {h}, Queued, waiting, availRing, taken);
    RingSame(flights, flights - {h}, Posted, finished, usedRing, seen);
  }

  lemma NonePostedNow(flights: Flights, waiting: seq<nat>, availRing: seq<nat>, taken: nat,
                   finished: seq<nat>, usedRing: seq<nat>, seen: nat, inside: set<nat>)
    requires RingsOk(flights, waiting, availRing, taken, finished, usedRing, seen, inside) && finished == []
    ensures forall h :: h in flights ==> !flights[h].phase.Posted?
  {
  }

  // ---- Blocks and buffers in range ----

  ghost predicate InBounds(flights: Flights, blocks: nat, bufs: nat) {
    forall h :: h in flights ==> flights[h].block < blocks && flights[h].b < bufs
  }

  lemma BoundsAdd(flights: Flights, h: nat, f: Flight, blocks: nat, bufs: nat)
    requires InBounds(flights, blocks, bufs) && f.block < blocks && f.b < bufs
    ensures InBounds(flights[h := f], blocks, bufs)
  {
  }

  lemma BoundsMove(flights: Flights, h: nat, phase: Phase, blocks: nat, bufs: nat)
    requires InBounds(flights, blocks, bufs) && h in flights
    ensures InBounds(flights[h := flights[h].(phase := phase)], blocks, bufs)
  {
  }

  lemma BoundsRemove(flights: Flights, h: nat, blocks: nat, bufs: nat)
    requires InBounds(flights, blocks, bufs)
    ensures InBounds(flights - {h}, blocks, bufs)
  {
  }

  lemma BoundsAre(flights: Flights, h: nat, blocks: nat, bufs: nat)
    requires InBounds(flights, blocks, bufs) && h in flights
    ensures flights[h].block < blocks && flights[h].b < bufs
  {
  }

  // ---- Counting ----

  function Frees(free: seq<bool>): set<int> {
    set i: int | 0 <= i < |free| && free[i]
  }

  /** All descriptors of requests in flight. */
  ghost function Chains(flights: Flights): set<int> {
    set i: int | 0 <= i < NUM && Owned(flights, i)
  }

  ghost predicate ChainsApart(flights: Flights) {
    && (forall h :: h in flights ==>
          && h < NUM && flights[h].mid < NUM && flights[h].last < NUM
          && h != flights[h].mid && h != flights[h].last && flights[h].mid != flights[h].last)
    && (forall g, h :: g in flights && h in flights ==> Apart(flights, g, h))
  }

  lemma RestOwns(flights: Flights, h: nat, i: int)
    requires h in flights && forall g :: g in flights ==> Apart(flights, g, h)
    ensures Owned(flights - {h}, i) <==> Owned(flights, i) && !Has(flights, h, i)
  {
    var rest := flights - {h};
    if Owned(rest, i) {
      var g :| Has(rest, g, i);
      assert Apart(flights, g, h) && Has(flights, g, i);
    }
    if Owned(flights, i) && !Has(flights, h, i) {
      var g :| Has(flights, g, i);
      assert Has(rest, g, i);
    }
  }

  lemma RestApart(flights: Flights, h: nat)
    requires ChainsApart(flights)
    ensures ChainsApart(flights - {h})
  {
    var rest := flights - {h};
    forall a, b | a in rest && b in rest ensures Apart(rest, a, b) {
      assert Apart(flights, a, b);
      assert forall i :: (Has(rest, a, i) <==> Has(flights, a, i)) && (Has(rest, b, i) <==> Has(flights, b, i));
    }
  }

  /** One request more, three descriptors more. */
  lemma OneMore(flights: Flights, h: nat)
    requires h in flights && ChainsApart(flights)
    ensures |Chains(flights)| == |Chains(flights - {h})| + 3
  {
    var rest, f := flights - {h}, flights[h];
    forall i ensures Owned(rest, i) <==> Owned(flights, i) && !Has(flights, h, i) { RestOwns(flights, h, i); }
    assert Has(flights, h, h) && Has(flights, h, f.mid) && Has(flights, h, f.last);
    var c: set<int> := {h, f.mid, f.last};
    assert |c| == 3;
    hide ChainsApart, Owned;
    assert Chains(flights) == Chains(rest) + c;
    assert Chains(rest) !! c;
  }

  lemma {:induction false} ThreeEach(flights: Flights)
    requires ChainsApart(flights)
    ensures |Chains(flights)| == 3 * |flights|
    decreases |flights|
  {
    if flights == map[] {
      assert Chains(flights) == {};
    } else {
      var h :| h in flights;
      OneMore(flights, h);
      RestApart(flights, h);
      assert flights.Keys == (flights - {h}).Keys + {h};
      ThreeEach(flights - {h});
    }
  }

  lemma OwnedMeansTaken(flights: Flights, desc: seq<Desc>, ops: seq<Op>, info: seq<Info>, free: seq<bool>)
    requires FlightsOk(flights, desc, ops, info, free)
    ensures ChainsApart(flights) && |free| == NUM
    ensures forall i :: 0 <= i < NUM ==> (Owned(flights, i) <==> !free[i])
  {
    forall i | 0 <= i < NUM ensures Owned(flights, i) <==> !free[i] {
      assert FreeOk(flights, free, i);
      if Owned(flights, i) {
        var h :| Has(flights, h, i);
        assert FlightOk(flights, h, desc, ops, info, free);
      }
    }
  }

  /** The free count is NUM less three for every request in flight. */
  lemma FreeCount(flights: Flights, desc: seq<Desc>, ops: seq<Op>, info: seq<Info>, free: seq<bool>)
    requires FlightsOk(flights, desc, ops, info, free)
    ensures |Frees(free)| == NUM - 3 * |flights|
  {
    OwnedMeansTaken(flights, desc, ops, info, free);
    ThreeEach(flights);
    hide FlightsOk, ChainsApart;
    var all := Upto(NUM);
    assert Frees(free) + Chains(flights) == all;
    assert Frees(free) !! Chains(flights);
  }

  // ---- Requests come, move on and go ----

  /** The memory a request depends on is the same. */
  lemma FlightSame(flights: Flights, flights': Flights, h: nat, desc: seq<Desc>, ops: seq<Op>, info: seq<Info>,
                   free: seq<bool>,
                   desc': seq<Desc>, ops': seq<Op>, info': seq<Info>, free': seq<bool>)
    requires |desc| == |ops| == |info| == |free| == |desc'| == |ops'| == |info'| == |free'| == NUM
    requires h in flights && h in flights' && flights'[h] == flights[h] && FlightOk(flights, h, desc, ops, info, free)
    requires forall i :: 0 <= i < NUM && Has(flights, h, i) ==> desc'[i] == desc[i] && free'[i] == free[i]
    requires ops'[h] == ops[h] && info'[h] == info[h]
    ensures FlightOk(flights', h, desc', ops', info', free')
  {
    var f := flights[h];
    assert Has(flights, h, f.mid) && Has(flights, h, f.last) && Has(flights, h, h);
  }

  lemma ApartSame(flights: Flights, flights': Flights, g: nat, h: nat)
    requires g in flights && h in flights && g in flights' && h in flights' && Apart(flights, g, h)
    requires flights'[g].mid == flights[g].mid && flights'[g].last == flights[g].last && flights'[g].b == flights[g].b
    requires flights'[h].mid == flights[h].mid && flights'[h].last == flights[h].last && flights'[h].b == flights[h].b
    ensures Apart(flights', g, h)
  {
    assert forall i :: (Has(flights', g, i) <==> Has(flights, g, i)) && (Has(flights', h, i) <==> Has(flights, h, i));
  }

  lemma StillOwned(flights: Flights, flights': Flights, free: seq<bool>, i: int)
    requires 0 <= i < |free| && !free[i] && FreeOk(flights, free, i)
    requires forall g :: Has(flights, g, i) ==> Has(flights', g, i)
    ensures Owned(flights', i)
  {
    var g :| Has(flights, g, i);
    assert Has(flights', g, i);
  }

  lemma AddBeside(flights: Flights, h: nat, f: Flight, g: nat, desc: seq<Desc>, ops: seq<Op>, info: seq<Info>,
                  free: seq<bool>,
                  desc': seq<Desc>, ops': seq<Op>, info': seq<Info>, free': seq<bool>)
    requires |desc| == |ops| == |info| == |free| == |desc'| == |ops'| == |info'| == |free'| == NUM
    requires h !in flights && g in flights && FlightOk(flights, g, desc, ops, info, free) && flights[g].b != f.b
    requires h < NUM && f.mid < NUM && f.last < NUM && free[h] && free[f.mid] && free[f.last]
    requires free' == free[h := false][f.mid := false][f.last := false]
    requires forall i :: 0 <= i < NUM && !free[i] ==> desc'[i] == desc[i] && ops'[i] == ops[i] && info'[i] == info[i]
    ensures var flights' := flights[h := f];
            FlightOk(flights', g, desc', ops', info', free') && Apart(flights', g, h) && Apart(flights', h, g)
  {
    var flights' := flights[h := f];
    FlightSame(flights, flights', g, desc, ops, info, free, desc', ops', info', free');
  }

  lemma AddFlight(flights: Flights, h: nat, f: Flight, desc: seq<Desc>, ops: seq<Op>, info: seq<Info>, free: seq<bool>,
                  desc': seq<Desc>, ops': seq<Op>, info': seq<Info>, free': seq<bool>)
    requires FlightsOk(flights, desc, ops, info, free) && |desc'| == |ops'| == |info'| == |free'| == NUM
    requires h < NUM && f.mid < NUM && f.last < NUM && h != f.mid && h != f.last && f.mid != f.last
    requires free[h] && free[f.mid] && free[f.last] && !HasBuffer(flights, f.b)
    requires free' == free[h := false][f.mid := false][f.last := false]
    requires FlightOk(map[h := f], h, desc', ops', info', free')
    requires forall i :: 0 <= i < NUM && !free[i] ==> desc'[i] == desc[i] && ops'[i] == ops[i] && info'[i] == info[i]
    ensures h !in flights && FlightsOk(flights[h := f], desc', ops', info', free')
  {
    var flights' := flights[h := f];
    assert h !in flights;
    FlightSame(map[h := f], flights', h, desc', ops', info', free', desc', ops', info', free');
    forall g | g in flights
      ensures FlightOk(flights', g, desc', ops', info', free') && Apart(flights', g, h) && Apart(flights', h, g)
    {
      assert FlightOk(flights, g, desc, ops, info, free);
      AddBeside(flights, h, f, g, desc, ops, info, free, desc', ops', info', free');
    }
    hide FlightOk;
    forall a, b | a in flights' && b in flights' ensures Apart(flights', a, b) {
      if a in flights && b in flights { ApartSame(flights, flights', a, b); }
    }
    forall i | 0 <= i < NUM ensures FreeOk(flights', free', i) {
      if !free'[i] && free[i] { assert Has(flights', h, i); }
      if !free[i] { StillOwned(flights, flights', free, i); }
    }
  }

  lemma MoveFlight(flights: Flights, h: nat, phase: Phase, desc: seq<Desc>, ops: seq<Op>, info: seq<Info>,
                   info': seq<Info>, free: seq<bool>)
    requires FlightsOk(flights, desc, ops, info, free) && h in flights && |info'| == NUM && h < NUM
    requires info' == info[h := Info(info[h].b, if phase.Queued? || phase.Taken? then 0xff else 0)]
    ensures FlightsOk(flights[h := flights[h].(phase := phase)], desc, ops, info', free)
  {
    var flights' := flights[h := flights[h].(phase := phase)];
    forall g | g in flights' ensures FlightOk(flights', g, desc, ops, info', free) {
      assert FlightOk(flights, g, desc, ops, info, free);
    }
    hide FlightOk;
    forall a, b | a in flights' && b in flights' ensures Apart(flights', a, b) { ApartSame(flights, flights', a, b); }
    hide Apart;
    forall i | 0 <= i < NUM ensures FreeOk(flights', free, i) {
      if !free[i] { StillOwned(flights, flights', free, i); }
    }
  }

  lemma RemoveFlight(flights: Flights, h: nat, desc: seq<Desc>, ops: seq<Op>, info: seq<Info>, free: seq<bool>,
                     desc': seq<Desc>, info': seq<Info>, free': seq<bool>)
    requires FlightsOk(flights, desc, ops, info, free) && h in flights && |desc'| == |info'| == |free'| == NUM
    requires forall i :: 0 <= i < NUM && !Has(flights, h, i) ==> desc'[i] == desc[i] && free'[i] == free[i]
    requires forall i :: 0 <= i < NUM && Has(flights, h, i) ==> free'[i]
    requires forall i :: 0 <= i < NUM && i != h ==> info'[i] == info[i]
    ensures FlightsOk(flights - {h}, desc', ops, info', free')
  {
    var flights' := flights - {h};
    forall g | g in flights' ensures FlightOk(flights', g, desc', ops, info', free') {
      assert FlightOk(flights, g, desc, ops, info, free) && Apart(flights, g, h);
      FlightSame(flights, flights', g, desc, ops, info, free, desc', ops, info', free');
    }
    hide FlightOk;
    forall a, b | a in flights' && b in flights' ensures Apart(flights', a, b) { ApartSame(flights, flights', a, b); }
    hide Apart;
    forall i | 0 <= i < NUM ensures FreeOk(flights', free', i) {
      if !free'[i] { StillOwned(flights, flights', free, i); }
    }
  }

  // ---- What the invariant says of one request ----

  lemma Lengths(flights: Flights, desc: seq<Desc>, ops: seq<Op>, info: seq<Info>, free: seq<bool>)
    requires FlightsOk(flights, desc, ops, info, free)
    ensures |desc| == |ops| == |info| == |free| == NUM
  {
  }

  /** What is in a descriptor that is free does not matter. */
  lemma FreeDescSame(flights: Flights, desc: seq<Desc>, desc': seq<Desc>, ops: seq<Op>, info: seq<Info>,
                     free: seq<bool>)
    requires FlightsOk(flights, desc, ops, info, free) && |desc'| == NUM
    requires forall i :: 0 <= i < NUM && !free[i] ==> desc'[i] == desc[i]
    ensures FlightsOk(flights, desc', ops, info, free)
  {
    hide Apart, FreeOk;
    forall h | h in flights ensures FlightOk(flights, h, desc', ops, info, free) {
      assert FlightOk(flights, h, desc, ops, info, free);
    }
  }

  lemma StatusIs(flights: Flights, desc: seq<Desc>, ops: seq<Op>, info: seq<Info>, free: seq<bool>, h: nat)
    requires FlightsOk(flights, desc, ops, info, free) && h in flights
    ensures h < NUM && |info| == NUM && info[h].b == Some(flights[h].b)
    ensures info[h].status == if flights[h].phase.Queued? || flights[h].phase.Taken? then 0xff else 0
  {
    hide Apart, FreeOk;
    assert FlightOk(flights, h, desc, ops, info, free);
  }

  lemma ChainIs(flights: Flights, desc: seq<Desc>, ops: seq<Op>, info: seq<Info>, free: seq<bool>, h: nat)
    requires FlightsOk(flights, desc, ops, info, free) && h in flights
    ensures |desc| == |ops| == |info| == |free| == NUM && FlightOk(flights, h, desc, ops, info, free)
  {
  }

  // ---- Busy buffers ----

  lemma BusyAdd(flights: Flights, busy: set<nat>, h: nat, f: Flight)
    requires BusyOk(flights, busy) && h !in flights && !HasBuffer(flights, f.b) && !f.phase.Seen?
    ensures f.b !in busy && BusyOk(flights[h := f], busy + {f.b})
  {
    var flights' := flights[h := f];
    forall b | b in busy + {f.b} ensures HasBuffer(flights', b) {
      if b in busy {
        assert HasBuffer(flights, b);
        var g :| g in flights && flights[g].b == b;
        assert flights'[g].b == b;
      } else {
        assert flights'[h].b == b;
      }
    }
    forall g | g in flights' ensures flights'[g].b in busy + {f.b} <==> !flights'[g].phase.Seen? {
      assert g in flights ==> HasBuffer(flights, flights[g].b);
    }
  }

  lemma SameBuffers(flights: Flights, h: nat, phase: Phase, b: nat)
    requires h in flights && HasBuffer(flights, b)
    ensures HasBuffer(flights[h := flights[h].(phase := phase)], b)
  {
    var g :| g in flights && flights[g].b == b;
    assert flights[h := flights[h].(phase := phase)][g].b == b;
  }

  lemma BusyMove(flights: Flights, busy: set<nat>, h: nat, phase: Phase)
    requires BusyOk(flights, busy) && h in flights && !flights[h].phase.Seen? && !phase.Seen?
    ensures BusyOk(flights[h := flights[h].(phase := phase)], busy)
  {
    forall b | b in busy ensures HasBuffer(flights[h := flights[h].(phase := phase)], b) {
      SameBuffers(flights, h, phase, b);
    }
  }

  /** The buffer of a request that is seen was busy, and no other request waits for it. */
  lemma BusySeen(flights: Flights, busy: set<nat>, h: nat, desc: seq<Desc>, ops: seq<Op>, info: seq<Info>,
                 free: seq<bool>)
    requires BusyOk(flights, busy) && FlightsOk(flights, desc, ops, info, free) && h in flights
             && !flights[h].phase.Seen?
    ensures flights[h].b in busy && BusyOk(flights[h := flights[h].(phase := Seen)], busy - {flights[h].b})
  {
    hide FlightOk, FreeOk;
    var flights' := flights[h := flights[h].(phase := Seen)];
    forall b | b in busy ensures HasBuffer(flights', b) { SameBuffers(flights, h, Seen, b); }
    forall g | g in flights' ensures flights'[g].b in busy - {flights[h].b} <==> !flights'[g].phase.Seen? {
      assert Apart(flights, g, h);
    }
  }

  lemma NotBusy(flights: Flights, busy: set<nat>, h: nat)
    requires BusyOk(flights, busy) && h in flights && flights[h].b !in busy
    ensures flights[h].phase.Seen?
  {
  }

  lemma BusyRemove(flights: Flights, busy: set<nat>, h: nat)
    requires BusyOk(flights, busy) && h in flights && flights[h].b !in busy
    ensures BusyOk(flights - {h}, busy)
  {
    forall b | b in busy ensures HasBuffer(flights - {h}, b) {
      assert HasBuffer(flights, b);
      var g :| g in flights && flights[g].b == b;
      assert g in flights - {h};
    }
  }

  // ---- Progress of requests ----

  function Rank(phase: Phase): nat {
    match phase case Queued => 0 case Taken => 1 case Posted => 2 case Seen => 3
  }

  /** The same requests, none further back. */
  ghost predicate Later(before: Flights, after: Flights) {
    && before.Keys == after.Keys
    && forall h :: h in before && h in after ==>
         after[h] == before[h].(phase := after[h].phase) && Rank(before[h].phase) <= Rank(after[h].phase)
  }

  lemma LaterSame(f: Flights)
    ensures Later(f, f)
  {
  }

  lemma LaterJoin(a: Flights, b: Flights, c: Flights)
    requires Later(a, b) && Later(b, c)
    ensures Later(a, c)
  {
    forall h | h in a && h in c ensures c[h] == a[h].(phase := c[h].phase) && Rank(a[h].phase) <= Rank(c[h].phase) {
      assert h in b;
    }
  }

  lemma AllSeen(a: Flights, b: Flights)
    requires Later(a, b) && forall h :: h in b ==> !b[h].phase.Posted?
    ensures forall h :: h in a && a[h].phase.Posted? ==> h in b && b[h].phase.Seen?
  {
    forall h | h in a && a[h].phase.Posted? ensures h in b && b[h].phase.Seen? {
      assert h in a.Keys;
    }
  }

  // ---- What a request asks of the disk ----

  /** A write puts the buffer's contents into its block. */
  function StoreAfter(f: Flight, store: seq<int>, data: seq<int>): (r: seq<int>)
    requires f.block < |store| && f.b < |data|
    ensures |r| == |store|
  {
    if f.write then store[f.block := data[f.b]] else store
  }

  /** A read puts the block's contents into its buffer. */
  function DataAfter(f: Flight, store: seq<int>, data: seq<int>): (r: seq<int>)
    requires f.block < |store| && f.b < |data|
    ensures |r| == |data|
  {
    if f.write then data else data[f.b := store[f.block]]
  }

  // ---- The whole queue ----

  /** What driver and device keep in memory. */
  datatype Queue = Queue(desc: seq<Desc>, ops: seq<Op>, info: seq<Info>, availRing: seq<nat>, availIdx: nat,
                         usedRing: seq<nat>, usedIdx: nat,
                         free: seq<bool>, seenIdx: nat, busy: set<nat>, takenIdx: nat, inside: set<nat>)

  /** The requests in flight, the two queues in order, and how many were ever pushed, taken,
      posted and seen. */
  datatype Books = Books(flights: Flights, waiting: seq<nat>, finished: seq<nat>, pushed: nat, taken: nat,
                         posted: nat, seen: nat)

  ghost predicate QueueOk(v: Queue, g: Books, blocks: nat, bufs: nat) {
    && FlightsOk(g.flights, v.desc, v.ops, v.info, v.free)
    && BusyOk(g.flights, v.busy)
    && RingsOk(g.flights, g.waiting, v.availRing, g.taken, g.finished, v.usedRing, g.seen, v.inside)
    && Counts(|g.waiting|, |v.inside|, |g.finished|, g.pushed, g.taken, g.posted, g.seen)
    && IndexOf(v.availIdx, g.pushed) && IndexOf(v.takenIdx, g.taken) && IndexOf(v.usedIdx, g.posted)
    && IndexOf(v.seenIdx, g.seen)
    && InBounds(g.flights, blocks, bufs)
  }

  /** The block that the device reads or writes: the driver doubles the block number in 32 bits
      to get a sector number. */
  function Addressed(block: nat): nat {
    block * 2 % 0x1_0000_0000 / 2
  }

  predicate Asks(f: Flight, b: nat, block: nat, write: bool) {
    f.b == b && f.block == Addressed(block) && f.write == write
  }

  function Pushed(g: Books, h: nat, f: Flight): Books {
    g.(flights := g.flights[h := f], waiting := g.waiting + [h], pushed := g.pushed + 1)
  }

  /** A request enters the phase after its own. */
  function Moved(g: Books, h: nat, phase: Phase): Books
    requires h in g.flights
  {
    var flights := g.flights[h := g.flights[h].(phase := phase)];
    match phase
    case Queued => g.(flights := flights)
    case Taken =>
      g.(flights := flights, waiting := if g.waiting == [] then [] else g.waiting[1..], taken := g.taken + 1)
    case Posted => g.(flights := flights, finished := g.finished + [h], posted := g.posted + 1)
    case Seen =>
      g.(flights := flights, finished := if g.finished == [] then [] else g.finished[1..], seen := g.seen + 1)
  }

  lemma QueueLengths(v: Queue, g: Books, blocks: nat, bufs: nat)
    requires QueueOk(v, g, blocks, bufs)
    ensures |v.desc| == |v.ops| == |v.info| == |v.free| == |v.availRing| == |v.usedRing| == NUM
    ensures |Frees(v.free)| == NUM - 3 * |g.flights|
    ensures g.pushed >= g.seen
    ensures v.takenIdx != v.availIdx <==> g.waiting != []
    ensures v.seenIdx != v.usedIdx <==> g.finished != []
    ensures g.waiting != [] ==> g.waiting[0] in g.flights && g.flights[g.waiting[0]].phase.Queued?
    ensures g.finished != [] ==> g.finished[0] in g.flights && g.flights[g.finished[0]].phase.Posted?
  {
    Lengths(g.flights, v.desc, v.ops, v.info, v.free);
    FreeCount(g.flights, v.desc, v.ops, v.info, v.free);
    RingSizes(g.flights, g.waiting, v.availRing, g.taken, g.finished, v.usedRing, g.seen, v.inside);
    IndicesDiffer(v.takenIdx, g.taken, v.availIdx, g.pushed);
    IndicesDiffer(v.seenIdx, g.seen, v.usedIdx, g.posted);
    hide FlightsOk, BusyOk, IndexOf, InBounds;
    if g.waiting != [] {
      TakeRings(g.flights, g.waiting, v.availRing, g.taken, g.finished, v.usedRing, g.seen, v.inside);
    }
    if g.finished != [] {
      SeenRings(g.flights, g.waiting, v.availRing, g.taken, g.finished, v.usedRing, g.seen, v.inside);
    }
  }

  lemma FreeDescOk(v: Queue, g: Books, blocks: nat, bufs: nat, desc: seq<Desc>)
    requires QueueOk(v, g, blocks, bufs) && |desc| == |v.desc| == |v.free| == NUM
    requires forall i :: 0 <= i < NUM && !v.free[i] ==> desc[i] == v.desc[i]
    ensures QueueOk(v.(desc := desc), g, blocks, bufs)
  {
    hide FlightsOk, BusyOk, RingsOk, IndexOf, InBounds;
    FreeDescSame(g.flights, v.desc, desc, v.ops, v.info, v.free);
  }

  /** The memory after a request was built from the descriptors `desc` and `free` of alloc3_desc. */
  function Submitted(v: Queue, h: nat, f: Flight, desc: seq<Desc>, free: seq<bool>): Queue
    requires |desc| == |v.ops| == |v.info| == |v.availRing| == NUM && h < NUM && f.mid < NUM && f.last < NUM
  {
    v.(desc := desc[h := Desc(OpAt(h), true, false, f.mid)]
                   [f.mid := Desc(DataOf(f.b), true, !f.write, f.last)][f.last := Desc(StatusAt(h), false, true, 0)],
       ops := v.ops[h := Op(f.write, f.block * 2 % 0x1_0000_0000)],
       info := v.info[h := Info(Some(f.b), 0xff)],
       free := free,
       busy := v.busy + {f.b},
       availRing := v.availRing[v.availIdx % NUM := h],
       availIdx := (v.availIdx + 1) % WRAP)
  }

  lemma SubmitOk(v: Queue, g: Books, blocks: nat, bufs: nat, h: nat, f: Flight, desc: seq<Desc>, free: seq<bool>)
    requires QueueOk(v, g, blocks, bufs)
             && |desc| == |v.desc| == |v.free| == |v.ops| == |v.info| == |v.availRing| == NUM
    requires forall i :: 0 <= i < NUM && !v.free[i] ==> desc[i] == v.desc[i]
    requires h < NUM && f.mid < NUM && f.last < NUM && h != f.mid && h != f.last && f.mid != f.last && f.phase.Queued?
    requires v.free[h] && v.free[f.mid] && v.free[f.last] && free == v.free[h := false][f.mid := false][f.last := false]
    requires f.block < blocks && f.block < 0x8000_0000 && f.b < bufs && !HasBuffer(g.flights, f.b)
    ensures h !in g.flights && QueueOk(Submitted(v, h, f, desc, free), Pushed(g, h, f), blocks, bufs)
  {
    hide FlightsOk, BusyOk, RingsOk, IndexOf, InBounds;
    SubmitFlights(v, g, h, f, desc, free);
    PushRings(g.flights, h, f, v.desc, v.ops, v.info, v.free, g.waiting, v.availRing, g.taken, g.finished, v.usedRing,
              g.seen, v.inside);
    SlotOf(v.availIdx, g.pushed);
    IndexStep(v.availIdx, g.pushed);
    BusyAdd(g.flights, v.busy, h, f);
    BoundsAdd(g.flights, h, f, blocks, bufs);
  }

  lemma SubmitFlights(v: Queue, g: Books, h: nat, f: Flight, desc: seq<Desc>, free: seq<bool>)
    requires FlightsOk(g.flights, v.desc, v.ops, v.info, v.free)
             && |desc| == |v.desc| == |v.free| == |v.ops| == |v.info| == |v.availRing| == NUM
    requires forall i :: 0 <= i < NUM && !v.free[i] ==> desc[i] == v.desc[i]
    requires h < NUM && f.mid < NUM && f.last < NUM && h != f.mid && h != f.last && f.mid != f.last && f.phase.Queued?
    requires v.free[h] && v.free[f.mid] && v.free[f.last] && free == v.free[h := false][f.mid := false][f.last := false]
    requires f.block < 0x8000_0000 && !HasBuffer(g.flights, f.b)
    ensures var v' := Submitted(v, h, f, desc, free);
            h !in g.flights && FlightsOk(g.flights[h := f], v'.desc, v'.ops, v'.info, v'.free)
  {
    hide FlightsOk;
    NewFlightOk(v, h, f, desc, free);
    hide FlightOk;
    var v' := Submitted(v, h, f, desc, free);
    AddFlight(g.flights, h, f, v.desc, v.ops, v.info, v.free, v'.desc, v'.ops, v'.info, free);
  }

  lemma NewFlightOk(v: Queue, h: nat, f: Flight, desc: seq<Desc>, free: seq<bool>)
    requires |desc| == |v.ops| == |v.info| == |v.availRing| == |v.free| == NUM
    requires h < NUM && f.mid < NUM && f.last < NUM && h != f.mid && h != f.last && f.mid != f.last && f.phase.Queued?
    requires free == v.free[h := false][f.mid := false][f.last := false] && f.block < 0x8000_0000
    ensures var v' := Submitted(v, h, f, desc, free);
            FlightOk(map[h := f], h, v'.desc, v'.ops, v'.info, free)
  {
  }

  lemma TakeOk(v: Queue, g: Books, blocks: nat, bufs: nat)
    requires QueueOk(v, g, blocks, bufs) && g.waiting != []
    ensures var h := g.waiting[0];
            && |v.availRing| == NUM && v.availRing[v.takenIdx % NUM] == h && h in g.flights
            && QueueOk(v.(takenIdx := (v.takenIdx + 1) % WRAP, inside := v.inside + {h}), Moved(g, h, Taken), blocks,
                       bufs)
  {
    hide FlightsOk, BusyOk, RingsOk, IndexOf, InBounds;
    SlotOf(v.takenIdx, g.taken);
    IndexStep(v.takenIdx, g.taken);
    TakeRings(g.flights, g.waiting, v.availRing, g.taken, g.finished, v.usedRing, g.seen, v.inside);
    var h := g.waiting[0];
    StatusIs(g.flights, v.desc, v.ops, v.info, v.free, h);
    MoveFlight(g.flights, h, Taken, v.desc, v.ops, v.info, v.info, v.free);
    BusyMove(g.flights, v.busy, h, Taken);
    BoundsMove(g.flights, h, Taken, blocks, bufs);
  }

  lemma CompleteOk(v: Queue, g: Books, blocks: nat, bufs: nat, h: nat)
    requires QueueOk(v, g, blocks, bufs) && h in v.inside
    ensures h in g.flights && g.flights[h].phase.Taken?
            && |v.desc| == |v.ops| == |v.info| == |v.free| == |v.usedRing| == NUM
    ensures FlightOk(g.flights, h, v.desc, v.ops, v.info, v.free) && g.flights[h].block < blocks
            && g.flights[h].b < bufs
    ensures QueueOk(v.(info := v.info[h := v.info[h].(status := 0)], usedRing := v.usedRing[v.usedIdx % NUM := h],
                       usedIdx := (v.usedIdx + 1) % WRAP, inside := v.inside - {h}),
                    Moved(g, h, Posted), blocks, bufs)
  {
    hide FlightsOk, BusyOk, RingsOk, IndexOf, InBounds;
    InsideIs(g.flights, g.waiting, v.availRing, g.taken, g.finished, v.usedRing, g.seen, v.inside, h);
    ChainIs(g.flights, v.desc, v.ops, v.info, v.free, h);
    BoundsAre(g.flights, h, blocks, bufs);
    PostRings(g.flights, h, v.desc, v.ops, v.info, v.free, g.waiting, v.availRing, g.taken, g.finished, v.usedRing,
              g.seen, v.inside);
    MoveFlight(g.flights, h, Posted, v.desc, v.ops, v.info, v.info[h := v.info[h].(status := 0)], v.free);
    BusyMove(g.flights, v.busy, h, Posted);
    BoundsMove(g.flights, h, Posted, blocks, bufs);
    SlotOf(v.usedIdx, g.posted);
    IndexStep(v.usedIdx, g.posted);
  }

  lemma SeenOk(v: Queue, g: Books, blocks: nat, bufs: nat)
    requires QueueOk(v, g, blocks, bufs) && g.finished != []
    ensures var h := g.finished[0];
            && |v.usedRing| == |v.info| == NUM && v.usedRing[v.seenIdx % NUM] == h && h < NUM && h in g.flights
            && v.info[h] == Info(Some(g.flights[h].b), 0) && g.flights[h].b in v.busy
            && QueueOk(v.(seenIdx := (v.seenIdx + 1) % WRAP, busy := v.busy - {g.flights[h].b}), Moved(g, h, Seen),
                       blocks, bufs)
  {
    hide FlightsOk, BusyOk, RingsOk, IndexOf, InBounds;
    SlotOf(v.seenIdx, g.seen);
    IndexStep(v.seenIdx, g.seen);
    SeenRings(g.flights, g.waiting, v.availRing, g.taken, g.finished, v.usedRing, g.seen, v.inside);
    var h := g.finished[0];
    StatusIs(g.flights, v.desc, v.ops, v.info, v.free, h);
    MoveFlight(g.flights, h, Seen, v.desc, v.ops, v.info, v.info, v.free);
    BusySeen(g.flights, v.busy, h, v.desc, v.ops, v.info, v.free);
    BoundsMove(g.flights, h, Seen, blocks, bufs);
  }

  lemma ChainOf(v: Queue, g: Books, blocks: nat, bufs: nat, h: nat)
    requires QueueOk(v, g, blocks, bufs) && h in g.flights
    ensures |v.desc| == |v.ops| == |v.info| == |v.free| == NUM && FlightOk(g.flights, h, v.desc, v.ops, v.info, v.free)
  {
  }

  /** No other request has the buffer of h. */
  lemma OwnBuffer(v: Queue, g: Books, blocks: nat, bufs: nat, h: nat)
    requires QueueOk(v, g, blocks, bufs) && h in g.flights
    ensures forall i :: i in g.flights && i != h ==> g.flights[i].b != g.flights[h].b
  {
    hide FlightOk, FreeOk, BusyOk, RingsOk, IndexOf, InBounds;
    forall i | i in g.flights && i != h ensures g.flights[i].b != g.flights[h].b {
      assert Apart(g.flights, i, h);
    }
  }

  lemma SeenNow(v: Queue, g: Books, blocks: nat, bufs: nat, h: nat)
    requires QueueOk(v, g, blocks, bufs) && h in g.flights && g.flights[h].b !in v.busy
    ensures g.flights[h].phase.Seen?
  {
    hide FlightsOk, RingsOk, IndexOf, InBounds;
  }

  lemma FinishOk(v: Queue, g: Books, blocks: nat, bufs: nat, h: nat, desc: seq<Desc>, info: seq<Info>, free: seq<bool>)
    requires QueueOk(v, g, blocks, bufs) && h in g.flights && g.flights[h].b !in v.busy
    requires |v.desc| == |v.info| == |v.free| == |desc| == |info| == |free| == NUM && h < NUM
             && g.flights[h].mid < NUM && g.flights[h].last < NUM
    requires free == v.free[h := true][g.flights[h].mid := true][g.flights[h].last := true]
    requires desc == v.desc[h := ZERO][g.flights[h].mid := ZERO][g.flights[h].last := ZERO]
    requires info == v.info[h := Info(None, v.info[h].status)]
    ensures QueueOk(v.(desc := desc, info := info, free := free), g.(flights := g.flights - {h}), blocks, bufs)
  {
    hide FlightsOk, BusyOk, RingsOk, IndexOf, InBounds;
    NotBusy(g.flights, v.busy, h);
    RemoveFlight(g.flights, h, v.desc, v.ops, v.info, v.free, desc, info, free);
    DropRings(g.flights, h, g.waiting, v.availRing, g.taken, g.finished, v.usedRing, g.seen, v.inside);
    BusyRemove(g.flights, v.busy, h);
    BoundsRemove(g.flights, h, blocks, bufs);
  }

  lemma NonePosted(v: Queue, g: Books, blocks: nat, bufs: nat)
    requires QueueOk(v, g, blocks, bufs) && g.finished == []
    ensures forall h :: h in g.flights ==> !g.flights[h].phase.Posted?
  {
    NonePostedNow(g.flights, g.waiting, v.availRing, g.taken, g.finished, v.usedRing, g.seen, v.inside);
  }
}
