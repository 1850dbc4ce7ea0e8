/** The virtio disk driver against any conforming device. Driver methods run under vdisk_lock;
    the device acts between them and between the turns of the interrupt handler's loop. */
module Virtio {
  import opened Common
  import opened VirtioSpec
  import opened VirtioHistory
  import S = Sleepers

  datatype DeviceAct = Take | Complete(h: nat)

  class Driver {
    // Shared with the device.
    var desc: seq<Desc>
    var ops: seq<Op>
    var info: seq<Info>
    var availRing: seq<nat>
    var availIdx: nat
    var usedRing: seq<nat>
    var usedIdx: nat

    // The driver's own.
    var free: seq<bool>
    var seenIdx: nat
    var busy: set<nat>

    // The device's own: how far it has read the avail ring, what it works on, and the disk.
    var takenIdx: nat
    var inside: set<nat>
    var store: seq<int>

    // The contents of the buffers.
    var data: seq<int>

    ghost var books: Books

    // What the device did so far, from the disk `start` on, and the numbers of the requests.
    ghost const start: seq<int>
    ghost var done: seq<Done>
    ghost var tickets: Tickets
    ghost var asked: seq<Asked>

    ghost function View(): Queue
      reads this
    {
      Queue(desc, ops, info, availRing, availIdx, usedRing, usedIdx, free, seenIdx, busy, takenIdx, inside)
    }

    ghost predicate Valid()
      reads this
    {
      QueueOk(View(), books, |store|, |data|) && History()
    }

    ghost predicate History()
      reads this
    {
      && HistoryOk(books.flights, tickets, done, start, store, data, books.pushed)
      && |asked| == books.pushed && AskedOk(asked, books.flights, tickets, done)
    }

    /** What sleepers on descriptors and buffers wait for. */
    ghost function Sleepers(): S.DiskState
      reads this
    {
      S.DiskState(free, busy)
    }

    /** All descriptors free, all indices zero. */
    constructor (store: seq<int>, data: seq<int>)
      ensures Valid() && books.flights == map[] && this.store == store && this.data == data
      ensures start == store && done == []
    {
      start, done, tickets, asked := store, [], map[], [];
      this.store, this.data := store, data;
      desc, ops, info := seq(NUM, _ => ZERO), seq(NUM, _ => Op(false, 0)), seq(NUM, _ => Info(None, 0));
      free, availRing, usedRing := seq(NUM, _ => true), seq(NUM, _ => 0), seq(NUM, _ => 0);
      availIdx, usedIdx, seenIdx, takenIdx, busy, inside := 0, 0, 0, 0, {}, {};
      books := Books(map[], [], [], 0, 0, 0, 0);
    }

    /** The first free descriptor, or -1. */
    method AllocDesc() returns (i: int)
      requires |free| == NUM
      modifies `free
      ensures -1 <= i < NUM && |free| == NUM
      ensures i == -1 ==> free == old(free) && forall j :: 0 <= j < NUM ==> !free[j]
      ensures i >= 0 ==> old(free[i]) && free == old(free)[i := false] && forall j :: 0 <= j < i ==> !old(free[j])
      ensures i >= 0 ==> Sleepers() == S.DiskAfterwards(old(Sleepers()), S.AllocDesc(i))
    {
      i := 0;
      while i < NUM
        invariant 0 <= i <= NUM && free == old(free)
        invariant forall j :: 0 <= j < i ==> !free[j]
      {
        if free[i] {
          free := free[i := false];
          return;
        }
        i := i + 1;
      }
      i := -1;
    }

    method FreeDesc(i: nat)
      requires |free| == |desc| == NUM && i < NUM && !free[i]
      modifies `free, `desc
      ensures free == old(free)[i := true] && desc == old(desc)[i := ZERO]
      ensures Sleepers() == S.DiskAfterwards(old(Sleepers()), S.FreeDesc(i))
    {
      desc, free := desc[i := ZERO], free[i := true];
    }

    /** The descriptors taken so far go back. */
    method FreeAll(idx: seq<nat>, ghost was: seq<bool>)
      requires |free| == |desc| == |was| == NUM
      requires forall k :: 0 <= k < |idx| ==> idx[k] < NUM && was[idx[k]]
      requires forall j, k :: 0 <= j < k < |idx| ==> idx[j] < idx[k]
      requires forall x :: 0 <= x < NUM ==> free[x] == (was[x] && x !in idx)
      modifies `free, `desc
      ensures free == was && |desc| == NUM
      ensures forall x :: 0 <= x < NUM && !was[x] ==> desc[x] == old(desc[x])
    {
      for j := 0 to |idx|
        invariant |free| == |desc| == NUM
        invariant forall k :: 0 <= k < |idx| ==> free[idx[k]] == (k < j)
        invariant forall x :: 0 <= x < NUM && x !in idx ==> free[x] == was[x]
        invariant forall x :: 0 <= x < NUM && !was[x] ==> desc[x] == old(desc[x])
      {
        FreeDesc(idx[j]);
      }
      forall x | 0 <= x < NUM ensures free[x] == was[x] {
        if x in idx {
          var k :| 0 <= k < |idx| && idx[k] == x;
          assert free[idx[k]];
        }
      }
    }

    /** Three free descriptors, or none if fewer are free. */
    method Alloc3() returns (ok: bool, idx: seq<nat>)
      requires |free| == |desc| == NUM
      modifies `free, `desc
      ensures |free| == |desc| == NUM && |idx| <= 3
      ensures ok <==> 3 <= |Frees(old(free))|
      ensures ok ==>
                |idx| == 3 && idx[0] < idx[1] < idx[2] < NUM && old(free[idx[0]]) && old(free[idx[1]])
                    && old(free[idx[2]])
      ensures ok ==> free == old(free)[idx[0] := false][idx[1] := false][idx[2] := false]
      ensures !ok ==> free == old(free)
      ensures forall i :: 0 <= i < NUM && !old(free[i]) ==> desc[i] == old(desc[i])
    {
      hide FirstOnes;
      idx := [];
      var i := 0;
      assert FirstOnes(free, free, []) by { NoneTaken(free); }
      while i < 3
        invariant i == |idx| <= 3 && |free| == |desc| == NUM && desc == old(desc)
        invariant FirstOnes(old(free), free, idx)
      {
        ghost var before := free;
        var d := AllocDesc();
        if d < 0 {
          AllTaken(old(free), free, idx);
          FreeAll(idx, old(free));
          return false, idx;
        }
        OneTaken(old(free), before, idx, d);
        idx := idx + [d];
        i := i + 1;
      }
      ThreeTaken(old(free), free, idx);
      ok := true;
    }

    /** The first part of virtio_disk_rw: the request is built and handed over, or, with fewer
        than three free descriptors, nothing happens and the caller sleeps. */
    method Submit(b: nat, block: nat, write: bool) returns (ok: bool, h: nat)
      requires Valid() && b < |data| && Addressed(block) < |store| && !HasBuffer(books.flights, b)
      modifies `free, `ops, `desc, `info, `busy, `availRing, `availIdx, `books, `tickets, `asked
      ensures Valid()
      ensures asked == if ok then old(asked) + [Asked(b, Addressed(block), write, data[b])] else old(asked)
      ensures tickets == if ok then old(tickets)[h := Ticket(old(books).pushed, data[b])] else old(tickets)
      ensures ok <==> 3 * (|old(books).flights| + 1) <= NUM
      ensures !ok ==> books == old(books) && busy == old(busy)
      ensures ok ==>
                h !in old(books).flights && h in books.flights && Asks(books.flights[h], b, block, write)
                    && books.flights[h].phase.Queued?
      ensures ok ==> books == Pushed(old(books), h, books.flights[h]) && busy == old(busy) + {b}
    {
      hide QueueOk, AskedOk, HistoryOk;
      QueueLengths(View(), books, |store|, |data|);
      h := 0;
      var idx;
      ghost var v := View();
      ok, idx := Alloc3();
      if ok {
        h := idx[0];
        Accept(b, block, write, idx, v);
      } else {
        FreeDescOk(v, books, |store|, |data|, desc);
        assert View() == v.(desc := desc);
      }
    }

    /** With three descriptors taken from the queue v, the request becomes one of those asked. */
    method Accept(b: nat, block: nat, write: bool, idx: seq<nat>, ghost v: Queue)
      requires QueueOk(v, books, |store|, |data|) && |v.free| == |v.desc| == NUM && History()
      requires View() == v.(free := free, desc := desc) && |desc| == |ops| == |info| == |availRing| == NUM
      requires forall i :: 0 <= i < NUM && !v.free[i] ==> desc[i] == v.desc[i]
      requires |idx| == 3 && idx[0] < idx[1] < idx[2] < NUM && v.free[idx[0]] && v.free[idx[1]] && v.free[idx[2]]
      requires free == v.free[idx[0] := false][idx[1] := false][idx[2] := false]
      requires b < |data| && Addressed(block) < |store| && !HasBuffer(books.flights, b)
      modifies `ops, `desc, `info, `busy, `availRing, `availIdx, `books, `tickets, `asked
      ensures Valid() && idx[0] !in old(books).flights
      ensures books == Pushed(old(books), idx[0], Flight(idx[1], idx[2], b, Addressed(block), write, Queued))
              && busy == old(busy) + {b}
      ensures tickets == old(tickets)[idx[0] := Ticket(old(books).pushed, data[b])]
      ensures asked == old(asked) + [Asked(b, Addressed(block), write, data[b])]
    {
      hide QueueOk, AskedOk, HistoryOk;
      ghost var g := books;
      Format(b, block, write, idx, v);
      SubmitBooks(asked, g, tickets, done, start, store, data, idx[0], books.flights[idx[0]]);
      asked := asked + [Asked(b, Addressed(block), write, data[b])];
      tickets := tickets[idx[0] := Ticket(g.pushed, data[b])];
    }

    /** The command header, the three descriptors and the book-keeping. */
    method Build(b: nat, block: nat, write: bool, idx: seq<nat>)
      requires |desc| == |ops| == |info| == NUM && |idx| == 3 && idx[0] < idx[1] < idx[2] < NUM
      modifies `ops, `desc, `info
      ensures ops == old(ops)[idx[0] := Op(write, block * 2 % 0x1_0000_0000)]
              && info == old(info)[idx[0] := Info(Some(b), 0xff)]
      ensures desc == old(desc)[idx[0] := Desc(OpAt(idx[0]), true, false, idx[1])]
                               [idx[1] := Desc(DataOf(b), true, !write, idx[2])]
                               [idx[2] := Desc(StatusAt(idx[0]), false, true, 0)]
    {
      ops := ops[idx[0] := Op(write, block * 2 % 0x1_0000_0000)];
      desc := desc[idx[0] := Desc(OpAt(idx[0]), true, false, idx[1])];
      desc := desc[idx[1] := Desc(DataOf(b), true, !write, idx[2])];
      info := info[idx[0] := Info(Some(b), 0xff)];
      desc := desc[idx[2] := Desc(StatusAt(idx[0]), false, true, 0)];
    }

    /** The request goes into the avail ring. */
    method Format(b: nat, block: nat, write: bool, idx: seq<nat>, ghost v: Queue)
      requires QueueOk(v, books, |store|, |data|) && |v.free| == |v.desc| == NUM
      requires View() == v.(free := free, desc := desc) && |desc| == |ops| == |info| == |availRing| == NUM
      requires forall i :: 0 <= i < NUM && !v.free[i] ==> desc[i] == v.desc[i]
      requires |idx| == 3 && idx[0] < idx[1] < idx[2] < NUM && v.free[idx[0]] && v.free[idx[1]] && v.free[idx[2]]
      requires free == v.free[idx[0] := false][idx[1] := false][idx[2] := false]
      requires b < |data| && Addressed(block) < |store| && !HasBuffer(books.flights, b)
      modifies `ops, `desc, `info, `busy, `availRing, `availIdx, `books
      ensures QueueOk(View(), books, |store|, |data|) && idx[0] !in old(books).flights
      ensures books == Pushed(old(books), idx[0], Flight(idx[1], idx[2], b, Addressed(block), write, Queued))
              && busy == old(busy) + {b}
    {
      hide QueueOk;
      var h := idx[0];
      ghost var f := Flight(idx[1], idx[2], b, Addressed(block), write, Queued);
      SubmitOk(v, books, |store|, |data|, h, f, desc, free);
      ghost var v' := Submitted(v, h, f, desc, free);
      assert v' == Submitted(View(), h, f, desc, free);
      HandOver(b, block, write, idx, f);
      books := Pushed(books, h, f);
    }

    method HandOver(b: nat, block: nat, write: bool, idx: seq<nat>, ghost f: Flight)
      requires |desc| == |ops| == |info| == |availRing| == NUM && |idx| == 3 && idx[0] < idx[1] < idx[2] < NUM
      requires f == Flight(idx[1], idx[2], b, Addressed(block), write, Queued)
      modifies `ops, `desc, `info, `busy, `availRing, `availIdx
      ensures View() == Submitted(old(View()), idx[0], f, old(desc), old(free))
      ensures Sleepers() == S.DiskAfterwards(old(Sleepers()), S.Submit(b))
    {
      Build(b, block, write, idx);
      busy := busy + {b};
      availRing := availRing[availIdx % NUM := idx[0]];
      availIdx := (availIdx + 1) % WRAP;
    }

    // ---- The device ----

    /** The device takes the next entry of the avail ring, if there is one. */
    method DeviceTake() returns (took: bool, h: nat)
      requires Valid()
      modifies `takenIdx, `inside, `books
      ensures Valid()
      ensures took <==> old(books).waiting != []
      ensures !took ==> books == old(books)
      ensures took ==> h == old(books).waiting[0] && h in old(books).flights && books == Moved(old(books), h, Taken)
    {
      hide QueueOk, AskedOk, HistoryOk;
      QueueLengths(View(), books, |store|, |data|);
      h := 0;
      took := takenIdx != availIdx;
      if took {
        ghost var v := View();
        TakeOk(v, books, |store|, |data|);
        h := availRing[takenIdx % NUM];
        takenIdx := (takenIdx + 1) % WRAP;
        inside := inside + {h};
        assert View() == v.(takenIdx := takenIdx, inside := inside);
        MoveKeeps(books, tickets, done, start, store, data, h, Taken);
        MoveAsked(asked, books.flights, tickets, done, h, Taken);
        books := Moved(books, h, Taken);
      }
    }

    /** The device follows the chain from h, moves the data and writes the status. */
    method Transfer(h: nat, ghost flights: Flights)
      requires |desc| == |ops| == |info| == |free| == NUM && h in flights && FlightOk(flights, h, desc, ops, info, free)
      requires flights[h].block < |store| && flights[h].b < |data|
      modifies `store, `data, `info
      ensures info == old(info)[h := old(info[h]).(status := 0)]
      ensures store == StoreAfter(flights[h], old(store), old(data))
              && data == DataAfter(flights[h], old(store), old(data))
    {
      var d0 := desc[h];
      var op := ops[d0.addr.i];
      var d1 := desc[d0.next];
      var d2 := desc[d1.next];
      assert d1.deviceWrites <==> !op.write;
      if op.write {
        store := store[op.sector / 2 := data[d1.addr.b]];
      } else {
        data := data[d1.addr.b := store[op.sector / 2]];
      }
      info := info[d2.addr.i := info[d2.addr.i].(status := 0)];
    }

    /** The device carries out a request and posts its head. */
    method Perform(h: nat, ghost flights: Flights)
      requires |desc| == |ops| == |info| == |free| == |usedRing| == NUM && h in flights
               && FlightOk(flights, h, desc, ops, info, free)
      requires flights[h].block < |store| && flights[h].b < |data|
      modifies `store, `data, `info, `usedRing, `usedIdx, `inside
      ensures View() == old(View()).(info := old(info)[h := old(info[h]).(status := 0)],
                                     usedRing := old(usedRing)[old(usedIdx) % NUM := h],
                                     usedIdx := (old(usedIdx) + 1) % WRAP, inside := old(inside) - {h})
      ensures store == StoreAfter(flights[h], old(store), old(data))
              && data == DataAfter(flights[h], old(store), old(data))
    {
      hide StoreAfter, DataAfter;
      Transfer(h, flights);
      usedRing := usedRing[usedIdx % NUM := h];
      usedIdx := (usedIdx + 1) % WRAP;
      inside := inside - {h};
    }

    /** The device completes a request that it took: it follows the chain, moves the data,
        writes the status and posts the head. */
    method DeviceComplete(h: nat)
      requires Valid() && h in inside
      modifies `store, `data, `info, `usedRing, `usedIdx, `inside, `books, `done
      ensures Valid() && h in old(books).flights && old(books).flights[h].phase.Taken?
              && books == Moved(old(books), h, Posted)
      ensures var f := old(books).flights[h];
              && f.block < |old(store)| && f.b < |old(data)|
              && store == StoreAfter(f, old(store), old(data)) && data == DataAfter(f, old(store), old(data))
              && h in tickets && done == old(done) + [Carry(f, tickets[h], old(store), old(data))]
    {
      hide QueueOk, AskedOk, StoreAfter, DataAfter, FlightOk, Frees, HistoryOk, Moved, Carry;
      ghost var g := books;
      CompleteOk(View(), g, |store|, |data|, h);
      OwnBuffer(View(), g, |store|, |data|, h);
      CompleteBooks(asked, g, tickets, done, start, store, data, h);
      ghost var entry := [Carry(g.flights[h], tickets[h], store, data)];
      Perform(h, g.flights);
      books, done := Moved(g, h, Posted), done + entry;
    }

    method DeviceDoes(act: DeviceAct)
      requires Valid()
      modifies `takenIdx, `store, `data, `info, `usedRing, `usedIdx, `inside, `books, `done
      ensures Valid() && Later(old(books).flights, books.flights) && old(done) <= done
      ensures books.seen == old(books).seen && books.pushed == old(books).pushed
    {
      hide QueueOk, AskedOk, HistoryOk, Carry, StoreAfter, DataAfter;
      match act
      case Take =>
        QueueLengths(View(), books, |store|, |data|);
        var _, _ := DeviceTake();
      case Complete(h) =>
        if h in inside { DeviceComplete(h); }
    }

    // ---- Completion ----

    /** One turn of the handler's loop. */
    method Acknowledge() returns (id: nat)
      requires Valid() && books.finished != []
      modifies `busy, `seenIdx, `books
      ensures Valid()
      ensures id == old(books).finished[0] && id in old(books).flights && books == Moved(old(books), id, Seen)
      ensures busy == old(busy) - {old(books).flights[id].b} && old(books).flights[id].b in old(busy)
      ensures Sleepers() == S.DiskAfterwards(old(Sleepers()), S.Seen(old(books).flights[id].b))
      ensures Later(old(books).flights, books.flights)
    {
      hide QueueOk, AskedOk, HistoryOk;
      ghost var v := View();
      QueueLengths(v, books, |store|, |data|);
      SeenOk(v, books, |store|, |data|);
      id := usedRing[seenIdx % NUM];
      assert info[id].status == 0;
      var b := info[id].b.value;
      busy := busy - {b};
      seenIdx := (seenIdx + 1) % WRAP;
      assert View() == v.(busy := busy, seenIdx := seenIdx);
      MoveKeeps(books, tickets, done, start, store, data, id, Seen);
      MoveAsked(asked, books.flights, tickets, done, id, Seen);
      books := Moved(books, id, Seen);
    }

    /** The device may act, and then the handler looks for a posted request. */
    method Turn(act: Option<DeviceAct>) returns (more: bool)
      requires Valid()
      modifies `takenIdx, `store, `data, `info, `usedRing, `usedIdx, `inside, `books, `done, `busy, `seenIdx
      ensures Valid() && Later(old(books).flights, books.flights) && old(done) <= done
      ensures busy <= old(busy) && books.pushed == old(books).pushed
      ensures if more then old(books).seen < books.seen <= books.pushed else books.finished == []
    {
      hide QueueOk, AskedOk, HistoryOk, Later;
      LaterSame(books.flights);
      if act.Some? {
        DeviceDoes(act.value);
      }
      ghost var before := books;
      QueueLengths(View(), books, |store|, |data|);
      more := seenIdx != usedIdx;
      if more {
        var _ := Acknowledge();
        LaterJoin(old(books).flights, before.flights, books.flights);
        QueueLengths(View(), books, |store|, |data|);
      }
    }

    /** The interrupt handler, with the device at work between its turns: afterwards no posted
        request is left, and no request has gone back. */
    method Intr(acts: seq<DeviceAct>)
      requires Valid()
      modifies `takenIdx, `store, `data, `info, `usedRing, `usedIdx, `inside, `books, `done, `busy, `seenIdx
      ensures Valid() && books.finished == [] && Later(old(books).flights, books.flights) && busy <= old(busy)
      ensures old(done) <= done && books.pushed == old(books).pushed
      ensures forall h :: h in old(books).flights && old(books).flights[h].phase.Posted? ==>
                h in books.flights && books.flights[h].phase.Seen?
    {
      hide QueueOk, AskedOk, HistoryOk, Later;
      LaterSame(books.flights);
      var k, more := 0, true;
      while more
        invariant Valid() && Later(old(books).flights, books.flights) && busy <= old(busy)
        invariant old(done) <= done && books.pushed == old(books).pushed
        invariant !more ==> books.finished == []
        decreases more, books.pushed - books.seen
      {
        ghost var before := books.flights;
        more := Turn(if k < |acts| then Some(acts[k]) else None);
        k := k + 1;
        LaterJoin(old(books).flights, before, books.flights);
      }
      NonePosted(View(), books, |store|, |data|);
      AllSeen(old(books).flights, books.flights);
    }

    /** The rest of virtio_disk_rw, once the buffer is not busy. The request was carried out
        exactly once, and its buffer holds what was moved. */
    method Finish(h: nat)
      requires Valid() && h in books.flights && books.flights[h].b !in busy
      modifies `info, `desc, `free, `books, `tickets
      ensures Valid() && books == old(books).(flights := old(books).flights - {h}) && tickets == old(tickets) - {h}
      ensures var f := old(books).flights[h];
              h in old(tickets) && f.b < |data| && CarriedOutOnce(start, done, f, old(tickets)[h], data[f.b])
    {
      hide QueueOk, AskedOk, HistoryOk, CarriedOutOnce, Frees, FlightOk;
      ghost var v, g := View(), books;
      ChainOf(v, g, |store|, |data|, h);
      SeenNow(v, g, |store|, |data|, h);
      ReturnMeans(g.flights, tickets, done, start, store, data, g.pushed, h);
      FinishKeeps(g, tickets, done, start, store, data, h);
      FinishAsked(asked, g.flights, tickets, done, h);
      Release(h, g.flights);
      FinishOk(v, g, |store|, |data|, h, desc, info, free);
      books, tickets := g.(flights := g.flights - {h}), tickets - {h};
    }

    /** The buffer leaves the books and the chain is freed. */
    method Release(h: nat, ghost flights: Flights)
      requires |desc| == |ops| == |info| == |free| == NUM && h in flights && FlightOk(flights, h, desc, ops, info, free)
      modifies `info, `desc, `free
      ensures h < NUM && flights[h].mid < NUM && flights[h].last < NUM
      ensures var mid, last := flights[h].mid, flights[h].last;
              View() == old(View()).(info := old(info)[h := Info(None, old(info[h].status))],
                                     free := old(free)[h := true][mid := true][last := true],
                                     desc := old(desc)[h := ZERO][mid := ZERO][last := ZERO])
    {
      info := info[h := Info(None, info[h].status)];
      FreeChain(h, flights[h].mid, flights[h].last);
    }

    lemma RunMeans()
      requires History()
      ensures store == Replay(start, done)
      ensures forall k :: 0 <= k < |done| && !done[k].write ==>
                done[k].block < |start| && done[k].value == Replay(start, done[..k])[done[k].block]
      ensures forall s: nat :: s < books.pushed ==>
                (CountOf(done, s) == if StillWaits(books.flights, tickets, s) then 0 else 1)
    {
      hide TicketsOk, SerialsOk, CountOf, StillWaits, Replay;
      forall k | 0 <= k < |done| && !done[k].write
        ensures done[k].block < |start| && done[k].value == Replay(start, done[..k])[done[k].block]
      {
        assert Answers(start, done, k);
      }
      forall s: nat | s < books.pushed
        ensures CountOf(done, s) == if StillWaits(books.flights, tickets, s) then 0 else 1
      {
        EachOnce(books.flights, tickets, done, data, books.pushed, s);
      }
    }

    /** The chain from h is freed link by link. */
    method FreeChain(h: nat, ghost mid: nat, ghost last: nat)
      requires |desc| == |free| == NUM && h < NUM && mid < NUM && last < NUM && h != mid && h != last && mid != last
      requires !free[h] && !free[mid] && !free[last]
      requires desc[h].hasNext && desc[h].next == mid && desc[mid].hasNext && desc[mid].next == last
               && !desc[last].hasNext
      modifies `desc, `free
      ensures free == old(free)[h := true][mid := true][last := true]
      ensures desc == old(desc)[h := ZERO][mid := ZERO][last := ZERO]
    {
      var i := h;
      ghost var n := 0;
      while true
        invariant |desc| == |free| == NUM && 0 <= n < 3
        invariant n == 0 ==> i == h && free == old(free) && desc == old(desc)
        invariant n == 1 ==> i == mid && free == old(free)[h := true] && desc == old(desc)[h := ZERO]
        invariant n == 2 ==>
                    i == last && free == old(free)[h := true][mid := true] && desc == old(desc)[h := ZERO][mid := ZERO]
        decreases 3 - n
      {
        var flag, next := desc[i].hasNext, desc[i].next;
        FreeDesc(i);
        if !flag {
          break;
        }
        i := next;
        n := n + 1;
      }
    }

    /** A caller changes a buffer that is not in use by the disk. */
    method Fill(b: nat, x: int)
      requires Valid() && b < |data| && !HasBuffer(books.flights, b)
      modifies `data
      ensures Valid() && data == old(data)[b := x]
    {
      hide QueueOk, AskedOk, HistoryOk;
      FillKeeps(books, tickets, done, start, store, data, b, x);
      data := data[b := x];
    }

    // ---- Runs ----

    /** Any run of requests, device actions and interrupts. `pending` are the requests whose
        callers have not come back from virtio_disk_rw; each owns three descriptors. The disk is
        what the writes carried out so far made of it, each read among them brought what its
        block held at that moment, and every request submitted either waits for the device or
        was carried out exactly once, on the buffer, the block and in the direction of its event:
        `asked` are the requests among the events that were let in, in order. */
    method Run(events: seq<Event>) returns (pending: map<nat, nat>, oks: seq<bool>)
      requires Valid() && books.flights == map[]
      modifies this
      ensures Valid() && Callers(pending, books.flights) && |Frees(free)| == NUM - 3 * |pending|
      ensures old(done) <= done && store == Replay(start, done)
      ensures forall k :: 0 <= k < |done| && !done[k].write ==>
                done[k].block < |start| && done[k].value == Replay(start, done[..k])[done[k].block]
      ensures forall s: nat :: s < books.pushed ==>
                (CountOf(done, s) == if StillWaits(books.flights, tickets, s) then 0 else 1)
      ensures |oks| == |events| && |asked| == books.pushed
      ensures Wanted(asked) == LetIn(Wanted(old(asked)), events, oks)
      ensures forall k :: 0 <= k < |done| ==> done[k].serial < |asked| && Does(asked[done[k].serial], done[k])
    {
      hide QueueOk, AskedOk, HistoryOk, Later, CountOf, StillWaits, Replay, Does, Wanted;
      pending, oks := map[], [];
      assert LetIn(Wanted(asked), events[..0], oks) == Wanted(asked);
      hide LetIn;
      for k := 0 to |events|
        invariant Valid() && Callers(pending, books.flights) && old(done) <= done
        invariant |oks| == k && Wanted(asked) == LetIn(Wanted(old(asked)), events[..k], oks)
      {
        var ok;
        ghost var was := asked;
        pending, ok := Happen(events[k], pending);
        LetInStep(Wanted(old(asked)), events, oks, k, ok);
        if ok { WantedStep(was, asked[|was|]); }
        oks := oks + [ok];
      }
      assert events[..|events|] == events;
      DoneAsAsked(asked, books.flights, tickets, done);
      QueueLengths(View(), books, |store|, |data|);
      RunMeans();
      assert |pending| == |books.flights| by { assert pending.Keys == books.flights.Keys; }
    }

    /** One event of a run. */
    method Happen(event: Event, pending: map<nat, nat>) returns (still: map<nat, nat>, ok: bool)
      requires Valid() && Callers(pending, books.flights)
      modifies this
      ensures Valid() && Callers(still, books.flights) && old(done) <= done
      ensures ok <==> event.Request? && event.b < |old(data)| && Addressed(event.block) < |old(store)|
                          && event.b !in pending.Values && 3 * (|pending| + 1) <= NUM
      ensures if ok then asked == old(asked) + [Asked(event.b, Addressed(event.block), event.write, old(data)[event.b])]
              else asked == old(asked)
    {
      hide QueueOk, AskedOk, HistoryOk, Later, CarriedOutOnce;
      still, ok := pending, false;
      assert |pending| == |books.flights| by { assert pending.Keys == books.flights.Keys; }
      ghost var before := books.flights;
      match event
      case Request(b, block, write) =>
        if b < |data| && Addressed(block) < |store| && b !in pending.Values {
          NoCaller(pending, books.flights, b);
          var h;
          ok, h := Submit(b, block, write);
          if ok { still := pending[h := b]; }
        }
      case Store(b, x) =>
        if b < |data| && b !in pending.Values {
          NoCaller(pending, books.flights, b);
          Fill(b, x);
        }
      case Device(act) =>
        DeviceDoes(act);
        CallersLater(pending, before, books.flights);
      case Interrupt(acts) =>
        Intr(acts);
        CallersLater(pending, before, books.flights);
      case Return(h) =>
        if h in pending && pending[h] !in busy {
          Finish(h);
          still := pending - {h};
        }
    }
  }

  datatype Event =
    | Request(b: nat, block: nat, write: bool)
    | Store(b: nat, x: int)
    | Device(act: DeviceAct)
    | Interrupt(acts: seq<DeviceAct>)
    | Return(h: nat)

  /** Buffers, blocks and directions of requests. */
  function Wanted(asked: seq<Asked>): seq<(nat, nat, bool)> {
    if asked == [] then []
    else
      var n := |asked| - 1;
      Wanted(asked[..n]) + [(asked[n].b, asked[n].block, asked[n].write)]
  }

  /** Those in `first`, and then those of the requests among the events that were let in. */
  function LetIn(first: seq<(nat, nat, bool)>, events: seq<Event>, oks: seq<bool>): seq<(nat, nat, bool)>
    requires |events| == |oks|
  {
    if events == [] then first
    else
      var n := |events| - 1;
      var e, before := events[n], LetIn(first, events[..n], oks[..n]);
      if e.Request? && oks[n] then before + [(e.b, Addressed(e.block), e.write)] else before
  }

  lemma LetInStep(first: seq<(nat, nat, bool)>, events: seq<Event>, oks: seq<bool>, k: nat, ok: bool)
    requires k < |events| && |oks| == k
    ensures var e, before := events[k], LetIn(first, events[..k], oks);
            LetIn(first, events[..k + 1], oks + [ok])
            == if e.Request? && ok then before + [(e.b, Addressed(e.block), e.write)] else before
  {
    var es, os := events[..k + 1], oks + [ok];
    assert es[..k] == events[..k] && os[..k] == oks && es[k] == events[k] && os[k] == ok;
  }

  lemma WantedStep(asked: seq<Asked>, a: Asked)
    ensures Wanted(asked + [a]) == Wanted(asked) + [(a.b, a.block, a.write)]
  {
    assert (asked + [a])[..|asked|] == asked;
  }

  /** The callers wait for exactly the requests in flight. */
  ghost predicate Callers(pending: map<nat, nat>, flights: Flights) {
    pending.Keys == flights.Keys && forall h :: h in pending && h in flights ==> pending[h] == flights[h].b
  }

  lemma NoCaller(pending: map<nat, nat>, flights: Flights, b: nat)
    requires Callers(pending, flights) && b !in pending.Values
    ensures !HasBuffer(flights, b)
  {
    forall h | h in flights ensures flights[h].b != b {
      assert h in pending.Keys && pending[h] in pending.Values;
    }
  }

  lemma CallersLater(pending: map<nat, nat>, before: Flights, flights: Flights)
    requires Callers(pending, before) && Later(before, flights)
    ensures Callers(pending, flights)
  {
    forall h | h in pending && h in flights ensures pending[h] == flights[h].b {
      assert h in before.Keys;
    }
  }

  /** `idx` are the first free descriptors, in order, and they are no longer free. */
  predicate FirstOnes(was: seq<bool>, free: seq<bool>, idx: seq<nat>) {
    && |was| == |free| == NUM
    && (forall j :: 0 <= j < |idx| ==> idx[j] < NUM && was[idx[j]])
    && (forall j, k :: 0 <= j < k < |idx| ==> idx[j] < idx[k])
    && (forall x :: 0 <= x < NUM ==> free[x] == (was[x] && x !in idx))
    && (forall x :: 0 <= x < NUM && was[x] && x !in idx && idx != [] ==> idx[|idx| - 1] < x)
  }

  lemma NoneTaken(free: seq<bool>)
    requires |free| == NUM
    ensures FirstOnes(free, free, [])
  {
  }

  lemma OneTaken(was: seq<bool>, free: seq<bool>, idx: seq<nat>, d: nat)
    requires FirstOnes(was, free, idx) && d < NUM && free[d] && forall j :: 0 <= j < d ==> !free[j]
    ensures FirstOnes(was, free[d := false], idx + [d])
  {
    assert d !in idx;
  }

  lemma AllTaken(was: seq<bool>, free: seq<bool>, idx: seq<nat>)
    requires FirstOnes(was, free, idx) && |idx| < 3 && forall j :: 0 <= j < NUM ==> !free[j]
    ensures |Frees(was)| < 3
    ensures |was| == |free| == NUM && forall k :: 0 <= k < |idx| ==> idx[k] < NUM && was[idx[k]]
    ensures forall j, k :: 0 <= j < k < |idx| ==> idx[j] < idx[k]
    ensures forall x :: 0 <= x < NUM ==> free[x] == (was[x] && x !in idx)
  {
    FreesAre(was, idx);
  }

  lemma ThreeTaken(was: seq<bool>, free: seq<bool>, idx: seq<nat>)
    requires FirstOnes(was, free, idx) && |idx| == 3
    ensures 3 <= |Frees(was)| && |was| == NUM
    ensures idx[0] < idx[1] < idx[2] < NUM && was[idx[0]] && was[idx[1]] && was[idx[2]]
    ensures free == was[idx[0] := false][idx[1] := false][idx[2] := false]
  {
    FreesHold(was, idx);
  }

  /** All free descriptors are in idx. */
  lemma FreesAre(free: seq<bool>, idx: seq<nat>)
    requires forall x :: 0 <= x < |free| && free[x] ==> x in idx
    ensures |Frees(free)| <= |idx|
  {
    Covering(idx, Frees(free));
  }

  lemma FreesHold(free: seq<bool>, idx: seq<nat>)
    requires |idx| == 3 && idx[0] < idx[1] < idx[2] < |free| && free[idx[0]] && free[idx[1]] && free[idx[2]]
    ensures 3 <= |Frees(free)|
  {
    var c: set<int> := {idx[0], idx[1], idx[2]};
    assert |c| == 3;
    SubsetSize(c, Frees(free));
  }
}
