/** What the requests of the virtio disk did, in the order in which the device carried them out. */
module VirtioHistory {
  import opened VirtioSpec

  /** The number of a request in flight, and what was in its buffer when it was submitted. */
  datatype Ticket = Ticket(serial: nat, given: int)

  type Tickets = map<nat, Ticket>

  /** A request carried out: `value` went from the buffer to the block, or the other way. */
  datatype Done = Done(serial: nat, b: nat, block: nat, write: bool, value: int)

  /** The disk after the writes of a history. */
  function Replay(start: seq<int>, done: seq<Done>): (r: seq<int>)
    ensures |r| == |start|
  {
    if done == [] then start
    else
      var r, d := Replay(start, done[..|done| - 1]), done[|done| - 1];
      if d.write && d.block < |r| then r[d.block := d.value] else r
  }

  predicate Served(done: seq<Done>, serial: nat) {
    exists k :: 0 <= k < |done| && done[k].serial == serial
  }

  predicate Carried(tickets: Tickets, serial: nat) {
    exists h :: h in tickets && tickets[h].serial == serial
  }

  predicate Waits(f: Flight) {
    f.phase.Queued? || f.phase.Taken?
  }

  /** A request that waits still has its buffer as it was given and is not in the history; one
      that was carried out is, with what its buffer holds now. */
  predicate TicketOk(f: Flight, t: Ticket, done: seq<Done>, data: seq<int>) {
    && f.b < |data|
    && if Waits(f) then data[f.b] == t.given && !Served(done, t.serial)
       else Done(t.serial, f.b, f.block, f.write, data[f.b]) in done && (f.write ==> data[f.b] == t.given)
  }

  /** What a read brought is what the writes before it left in the block. */
  predicate Answers(start: seq<int>, done: seq<Done>, k: nat)
    requires k < |done|
  {
    var d := done[k];
    !d.write ==> d.block < |start| && d.value == Replay(start, done[..k])[d.block]
  }

  ghost predicate TicketsOk(flights: Flights, tickets: Tickets, done: seq<Done>, data: seq<int>) {
    && tickets.Keys == flights.Keys
    && (forall h :: h in flights && h in tickets ==> TicketOk(flights[h], tickets[h], done, data))
    && (forall g, h :: g in tickets && h in tickets && g != h ==> tickets[g].serial != tickets[h].serial)
  }

  /** Every request ever submitted was carried out once, or is in flight. */
  ghost predicate SerialsOk(tickets: Tickets, done: seq<Done>, pushed: nat) {
    && (forall h :: h in tickets ==> tickets[h].serial < pushed)
    && (forall k :: 0 <= k < |done| ==> done[k].serial < pushed)
    && (forall j, k :: 0 <= j < k < |done| ==> done[j].serial != done[k].serial)
    && (forall s: nat :: s < pushed ==> Served(done, s) || Carried(tickets, s))
  }

  ghost predicate AnswersOk(start: seq<int>, done: seq<Done>, store: seq<int>) {
    store == Replay(start, done) && forall k :: 0 <= k < |done| ==> Answers(start, done, k)
  }

  ghost predicate HistoryOk(flights: Flights, tickets: Tickets, done: seq<Done>, start: seq<int>, store: seq<int>,
                            data: seq<int>, pushed: nat) {
    TicketsOk(flights, tickets, done, data) && SerialsOk(tickets, done, pushed) && AnswersOk(start, done, store)
  }

  // ---- The steps ----

  lemma SubmitHistory(flights: Flights, tickets: Tickets, done: seq<Done>, data: seq<int>, pushed: nat, h: nat,
                      f: Flight)
    requires TicketsOk(flights, tickets, done, data) && SerialsOk(tickets, done, pushed)
    requires h !in flights && f.b < |data| && f.phase.Queued?
    ensures var tickets' := tickets[h := Ticket(pushed, data[f.b])];
            TicketsOk(flights[h := f], tickets', done, data) && SerialsOk(tickets', done, pushed + 1)
  {
    var tickets' := tickets[h := Ticket(pushed, data[f.b])];
    assert h !in tickets.Keys;
    forall s: nat | s < pushed + 1 ensures Served(done, s) || Carried(tickets', s) {
      if s == pushed {
        assert tickets'[h].serial == s;
      } else if Carried(tickets, s) {
        var g :| g in tickets && tickets[g].serial == s;
        assert tickets'[g].serial == s;
      }
    }
  }

  /** The device takes a request, or the handler sees one. */
  lemma MoveHistory(flights: Flights, tickets: Tickets, done: seq<Done>, data: seq<int>, h: nat, phase: Phase)
    requires TicketsOk(flights, tickets, done, data) && h in flights
    requires Waits(flights[h]) <==> phase.Queued? || phase.Taken?
    ensures TicketsOk(flights[h := flights[h].(phase := phase)], tickets, done, data)
  {
    hide Served;
  }

  /** The device carries out a request: the entry it adds to the history. */
  function Carry(f: Flight, t: Ticket, store: seq<int>, data: seq<int>): Done
    requires f.block < |store| && f.b < |data|
  {
    Done(t.serial, f.b, f.block, f.write, if f.write then data[f.b] else store[f.block])
  }

  lemma CarriedTicket(flights: Flights, tickets: Tickets, done: seq<Done>, store: seq<int>, data: seq<int>, h: nat,
                      g: nat)
    requires TicketsOk(flights, tickets, done, data) && h in flights && h in tickets && Waits(flights[h])
    requires flights[h].block < |store| && flights[h].b < |data| && g in flights && g in tickets
    requires g != h ==> flights[g].b != flights[h].b
    ensures var f := if g == h then flights[h].(phase := Posted) else flights[g];
            TicketOk(f, tickets[g], done + [Carry(flights[h], tickets[h], store, data)],
                     DataAfter(flights[h], store, data))
  {
    var d := Carry(flights[h], tickets[h], store, data);
    var done' := done + [d];
    assert TicketOk(flights[g], tickets[g], done, data);
    assert done'[|done|] == d;
    if g == h {
      assert d in done';
    } else if Waits(flights[g]) {
      assert forall k :: 0 <= k < |done'| ==> done'[k].serial != tickets[g].serial;
    }
  }

  lemma CompleteTickets(flights: Flights, tickets: Tickets, done: seq<Done>, store: seq<int>, data: seq<int>, h: nat)
    requires TicketsOk(flights, tickets, done, data) && h in flights && h in tickets && Waits(flights[h])
    requires flights[h].block < |store| && flights[h].b < |data|
    requires forall g :: g in flights && g != h ==> flights[g].b != flights[h].b
    ensures TicketsOk(flights[h := flights[h].(phase := Posted)], tickets,
                      done + [Carry(flights[h], tickets[h], store, data)], DataAfter(flights[h], store, data))
  {
    hide TicketOk, Carry, DataAfter;
    var flights' := flights[h := flights[h].(phase := Posted)];
    var done', data' := done + [Carry(flights[h], tickets[h], store, data)], DataAfter(flights[h], store, data);
    forall g | g in flights' && g in tickets ensures TicketOk(flights'[g], tickets[g], done', data') {
      CarriedTicket(flights, tickets, done, store, data, h, g);
    }
  }

  lemma CompleteSerials(tickets: Tickets, done: seq<Done>, pushed: nat, h: nat, d: Done)
    requires SerialsOk(tickets, done, pushed) && h in tickets && d.serial == tickets[h].serial
             && !Served(done, d.serial)
    ensures SerialsOk(tickets, done + [d], pushed)
  {
    var done' := done + [d];
    forall j, k | 0 <= j < k < |done'| ensures done'[j].serial != done'[k].serial {
      if k == |done| { assert done[j].serial != d.serial; }
    }
    forall s: nat | s < pushed ensures Served(done', s) || Carried(tickets, s) {
      if Served(done, s) {
        var k :| 0 <= k < |done| && done[k].serial == s;
        assert done'[k].serial == s;
      }
    }
  }

  lemma CompleteAnswers(start: seq<int>, done: seq<Done>, store: seq<int>, f: Flight, t: Ticket, data: seq<int>)
    requires AnswersOk(start, done, store) && f.block < |store| && f.b < |data|
    ensures AnswersOk(start, done + [Carry(f, t, store, data)], StoreAfter(f, store, data))
  {
    var d := Carry(f, t, store, data);
    var done' := done + [d];
    assert done'[..|done|] == done;
    forall k | 0 <= k < |done'| ensures Answers(start, done', k) {
      if k < |done| {
        assert Answers(start, done, k) && done'[..k] == done[..k];
      }
    }
  }

  lemma CompleteHistory(flights: Flights, tickets: Tickets, done: seq<Done>, start: seq<int>, store: seq<int>,
                        data: seq<int>, pushed: nat, h: nat)
    requires HistoryOk(flights, tickets, done, start, store, data, pushed) && h in flights && Waits(flights[h])
    requires flights[h].block < |store| && flights[h].b < |data|
    requires forall g :: g in flights && g != h ==> flights[g].b != flights[h].b
    ensures h in tickets
    ensures HistoryOk(flights[h := flights[h].(phase := Posted)], tickets,
                      done + [Carry(flights[h], tickets[h], store, data)],
                      start, StoreAfter(flights[h], store, data), DataAfter(flights[h], store, data), pushed)
  {
    assert h in tickets.Keys;
    assert TicketOk(flights[h], tickets[h], done, data);
    hide TicketsOk, SerialsOk, AnswersOk, TicketOk;
    CompleteTickets(flights, tickets, done, store, data, h);
    assert !Served(done, tickets[h].serial) by { NotServed(flights[h], tickets[h], done, data); }
    CompleteSerials(tickets, done, pushed, h, Carry(flights[h], tickets[h], store, data));
    CompleteAnswers(start, done, store, flights[h], tickets[h], data);
  }

  lemma ServedOrWaits(f: Flight, t: Ticket, done: seq<Done>, data: seq<int>)
    requires TicketOk(f, t, done, data)
    ensures Served(done, t.serial) || Waits(f)
  {
    if !Waits(f) {
      var k :| 0 <= k < |done| && done[k] == Done(t.serial, f.b, f.block, f.write, data[f.b]);
    }
  }

  lemma NotServed(f: Flight, t: Ticket, done: seq<Done>, data: seq<int>)
    requires TicketOk(f, t, done, data) && Waits(f)
    ensures !Served(done, t.serial)
  {
  }

  /** A caller comes back: its request stays in the history. */
  lemma FinishHistory(flights: Flights, tickets: Tickets, done: seq<Done>, data: seq<int>, pushed: nat, h: nat)
    requires TicketsOk(flights, tickets, done, data) && SerialsOk(tickets, done, pushed) && h in flights
             && !Waits(flights[h])
    ensures TicketsOk(flights - {h}, tickets - {h}, done, data) && SerialsOk(tickets - {h}, done, pushed)
  {
    assert h in tickets.Keys && TicketOk(flights[h], tickets[h], done, data);
    ServedOrWaits(flights[h], tickets[h], done, data);
    forall s: nat | s < pushed ensures Served(done, s) || Carried(tickets - {h}, s) {
      if !Served(done, s) {
        var g :| g in tickets && tickets[g].serial == s;
        assert g in tickets - {h} && (tickets - {h})[g].serial == s;
      }
    }
  }

  /** A buffer that no request uses gets new contents. */
  lemma FillHistory(flights: Flights, tickets: Tickets, done: seq<Done>, data: seq<int>, b: nat, x: int)
    requires TicketsOk(flights, tickets, done, data) && b < |data| && !HasBuffer(flights, b)
    ensures TicketsOk(flights, tickets, done, data[b := x])
  {
    forall h | h in flights && h in tickets ensures TicketOk(flights[h], tickets[h], done, data[b := x]) {
      assert TicketOk(flights[h], tickets[h], done, data);
    }
  }

  // ---- The same for the whole history ----

  lemma SubmitKeeps(g: Books, tickets: Tickets, done: seq<Done>, start: seq<int>, store: seq<int>, data: seq<int>,
                    h: nat, f: Flight)
    requires HistoryOk(g.flights, tickets, done, start, store, data, g.pushed) && h !in g.flights && f.b < |data|
             && f.phase.Queued?
    ensures var g' := Pushed(g, h, f);
            HistoryOk(g'.flights, tickets[h := Ticket(g.pushed, data[f.b])], done, start, store, data, g'.pushed)
  {
    hide TicketsOk, SerialsOk, AnswersOk;
    SubmitHistory(g.flights, tickets, done, data, g.pushed, h, f);
  }

  lemma MoveKeeps(g: Books, tickets: Tickets, done: seq<Done>, start: seq<int>, store: seq<int>, data: seq<int>,
                  h: nat, phase: Phase)
    requires HistoryOk(g.flights, tickets, done, start, store, data, g.pushed) && h in g.flights
    requires Waits(g.flights[h]) <==> phase.Queued? || phase.Taken?
    ensures var g' := Moved(g, h, phase); HistoryOk(g'.flights, tickets, done, start, store, data, g'.pushed)
  {
    hide TicketsOk, SerialsOk, AnswersOk;
    MoveHistory(g.flights, tickets, done, data, h, phase);
  }

  lemma CompleteKeeps(g: Books, tickets: Tickets, done: seq<Done>, start: seq<int>, store: seq<int>, data: seq<int>,
                      h: nat)
    requires HistoryOk(g.flights, tickets, done, start, store, data, g.pushed) && h in g.flights && Waits(g.flights[h])
    requires g.flights[h].block < |store| && g.flights[h].b < |data|
    requires forall i :: i in g.flights && i != h ==> g.flights[i].b != g.flights[h].b
    ensures h in tickets
    ensures var f, g' := g.flights[h], Moved(g, h, Posted);
            HistoryOk(g'.flights, tickets, done + [Carry(f, tickets[h], store, data)], start,
                      StoreAfter(f, store, data),
                      DataAfter(f, store, data), g'.pushed)
  {
    hide HistoryOk;
    CompleteHistory(g.flights, tickets, done, start, store, data, g.pushed, h);
  }

  lemma FinishKeeps(g: Books, tickets: Tickets, done: seq<Done>, start: seq<int>, store: seq<int>, data: seq<int>,
                    h: nat)
    requires HistoryOk(g.flights, tickets, done, start, store, data, g.pushed) && h in g.flights && !Waits(g.flights[h])
    ensures HistoryOk(g.flights - {h}, tickets - {h}, done, start, store, data, g.pushed)
  {
    hide TicketsOk, SerialsOk, AnswersOk;
    FinishHistory(g.flights, tickets, done, data, g.pushed, h);
  }

  lemma FillKeeps(g: Books, tickets: Tickets, done: seq<Done>, start: seq<int>, store: seq<int>, data: seq<int>,
                  b: nat, x: int)
    requires HistoryOk(g.flights, tickets, done, start, store, data, g.pushed) && b < |data| && !HasBuffer(g.flights, b)
    ensures HistoryOk(g.flights, tickets, done, start, store, data[b := x], g.pushed)
  {
    hide TicketsOk, SerialsOk, AnswersOk;
    FillHistory(g.flights, tickets, done, data, b, x);
  }

  lemma HaveTickets(flights: Flights, tickets: Tickets, done: seq<Done>, start: seq<int>, store: seq<int>,
                    data: seq<int>, pushed: nat)
    requires HistoryOk(flights, tickets, done, start, store, data, pushed)
    ensures TicketsOk(flights, tickets, done, data)
  {
  }

  // ---- What was asked ----

  /** A request as its caller made it; `given` is what was in the buffer. Request s is the one with
      serial number s. */
  datatype Asked = Asked(b: nat, block: nat, write: bool, given: int)

  predicate Fits(a: Asked, f: Flight, t: Ticket) {
    f.b == a.b && f.block == a.block && f.write == a.write && t.given == a.given
  }

  /** The device did what was asked. */
  predicate Does(a: Asked, d: Done) {
    d.b == a.b && d.block == a.block && d.write == a.write && (d.write ==> d.value == a.given)
  }

  ghost predicate AskedOk(asked: seq<Asked>, flights: Flights, tickets: Tickets, done: seq<Done>) {
    && (forall h :: h in flights && h in tickets ==>
          tickets[h].serial < |asked| && Fits(asked[tickets[h].serial], flights[h], tickets[h]))
    && (forall k :: 0 <= k < |done| ==> done[k].serial < |asked| && Does(asked[done[k].serial], done[k]))
  }

  lemma DoneAsAsked(asked: seq<Asked>, flights: Flights, tickets: Tickets, done: seq<Done>)
    requires AskedOk(asked, flights, tickets, done)
    ensures forall k :: 0 <= k < |done| ==> done[k].serial < |asked| && Does(asked[done[k].serial], done[k])
  {
  }

  lemma SubmitAsked(asked: seq<Asked>, flights: Flights, tickets: Tickets, done: seq<Done>, h: nat, f: Flight, x: int)
    requires AskedOk(asked, flights, tickets, done) && h !in flights
    ensures AskedOk(asked + [Asked(f.b, f.block, f.write, x)], flights[h := f], tickets[h := Ticket(|asked|, x)], done)
  {
  }

  lemma MoveAsked(asked: seq<Asked>, flights: Flights, tickets: Tickets, done: seq<Done>, h: nat, phase: Phase)
    requires AskedOk(asked, flights, tickets, done) && h in flights
    ensures AskedOk(asked, flights[h := flights[h].(phase := phase)], tickets, done)
  {
  }

  lemma CompleteAsked(asked: seq<Asked>, flights: Flights, tickets: Tickets, done: seq<Done>, store: seq<int>,
                      data: seq<int>, h: nat)
    requires AskedOk(asked, flights, tickets, done) && TicketsOk(flights, tickets, done, data)
    requires h in flights && h in tickets && Waits(flights[h])
    requires flights[h].block < |store| && flights[h].b < |data|
    ensures AskedOk(asked, flights[h := flights[h].(phase := Posted)], tickets,
                    done + [Carry(flights[h], tickets[h], store, data)])
  {
    assert TicketOk(flights[h], tickets[h], done, data);
  }

  lemma FinishAsked(asked: seq<Asked>, flights: Flights, tickets: Tickets, done: seq<Done>, h: nat)
    requires AskedOk(asked, flights, tickets, done)
    ensures AskedOk(asked, flights - {h}, tickets - {h}, done)
  {
  }

  lemma SubmitBooks(asked: seq<Asked>, g: Books, tickets: Tickets, done: seq<Done>, start: seq<int>, store: seq<int>,
                    data: seq<int>, h: nat, f: Flight)
    requires HistoryOk(g.flights, tickets, done, start, store, data, g.pushed) && h !in g.flights && f.b < |data|
             && f.phase.Queued? && AskedOk(asked, g.flights, tickets, done) && |asked| == g.pushed
    ensures var g', tickets' := Pushed(g, h, f), tickets[h := Ticket(g.pushed, data[f.b])];
            && HistoryOk(g'.flights, tickets', done, start, store, data, g'.pushed)
            && AskedOk(asked + [Asked(f.b, f.block, f.write, data[f.b])], g'.flights, tickets', done)
            && g'.pushed == g.pushed + 1
  {
    hide HistoryOk, AskedOk;
    SubmitKeeps(g, tickets, done, start, store, data, h, f);
    SubmitAsked(asked, g.flights, tickets, done, h, f, data[f.b]);
  }

  lemma CompleteBooks(asked: seq<Asked>, g: Books, tickets: Tickets, done: seq<Done>, start: seq<int>, store: seq<int>,
                      data: seq<int>, h: nat)
    requires HistoryOk(g.flights, tickets, done, start, store, data, g.pushed) && h in g.flights && Waits(g.flights[h])
    requires g.flights[h].block < |store| && g.flights[h].b < |data|
    requires forall i :: i in g.flights && i != h ==> g.flights[i].b != g.flights[h].b
    requires AskedOk(asked, g.flights, tickets, done)
    ensures h in tickets
    ensures var f, g' := g.flights[h], Moved(g, h, Posted);
            && HistoryOk(g'.flights, tickets, done + [Carry(f, tickets[h], store, data)], start,
                         StoreAfter(f, store, data), DataAfter(f, store, data), g'.pushed)
            && AskedOk(asked, g'.flights, tickets, done + [Carry(f, tickets[h], store, data)])
            && g'.pushed == g.pushed
  {
    hide HistoryOk, AskedOk, Carry, StoreAfter, DataAfter;
    CompleteKeeps(g, tickets, done, start, store, data, h);
    HaveTickets(g.flights, tickets, done, start, store, data, g.pushed);
    CompleteAsked(asked, g.flights, tickets, done, store, data, h);
  }

  // ---- What a caller can count on ----

  /** The request with this number was carried out exactly once. It moved x: for a read, what
      the block held at that moment; for a write, what it was given. */
  ghost predicate CarriedOutOnce(start: seq<int>, done: seq<Done>, f: Flight, t: Ticket, x: int) {
    exists k ::
      && 0 <= k < |done| && OnlyEntry(done, k, t.serial) && done[k] == Done(t.serial, f.b, f.block, f.write, x)
      && if f.write then x == t.given
         else f.block < |start| && x == Replay(start, done[..k])[f.block]
  }

  predicate OnlyEntry(done: seq<Done>, k: nat, serial: nat) {
    forall j :: 0 <= j < |done| && done[j].serial == serial ==> j == k
  }

  lemma ReturnMeans(flights: Flights, tickets: Tickets, done: seq<Done>, start: seq<int>, store: seq<int>,
                    data: seq<int>, pushed: nat, h: nat)
    requires HistoryOk(flights, tickets, done, start, store, data, pushed) && h in flights && !Waits(flights[h])
    ensures h in tickets && flights[h].b < |data|
            && CarriedOutOnce(start, done, flights[h], tickets[h], data[flights[h].b])
  {
    assert h in tickets.Keys;
    var f, t := flights[h], tickets[h];
    assert TicketOk(f, t, done, data);
    var k :| 0 <= k < |done| && done[k] == Done(t.serial, f.b, f.block, f.write, data[f.b]);
    assert Answers(start, done, k);
    assert OnlyEntry(done, k, t.serial);
  }

  /** How often the history has the request with this number. */
  function CountOf(done: seq<Done>, serial: nat): nat {
    if done == [] then 0
    else CountOf(done[..|done| - 1], serial) + if done[|done| - 1].serial == serial then 1 else 0
  }

  /** The request with this number waits for the device. */
  ghost predicate StillWaits(flights: Flights, tickets: Tickets, serial: nat) {
    exists h :: h in flights && h in tickets && tickets[h].serial == serial && Waits(flights[h])
  }

  lemma {:induction false} CountsOne(done: seq<Done>, serial: nat)
    requires forall j, k :: 0 <= j < k < |done| ==> done[j].serial != done[k].serial
    ensures CountOf(done, serial) == if Served(done, serial) then 1 else 0
  {
    if done != [] {
      var n := |done| - 1;
      CountsOne(done[..n], serial);
      assert done[..n] + [done[n]] == done;
      if Served(done[..n], serial) {
        var k :| 0 <= k < n && done[..n][k].serial == serial;
        assert done[k].serial == serial;
      } else {
        assert forall k :: 0 <= k < n ==> done[k] == done[..n][k];
      }
    }
  }

  /** Of all requests ever submitted, each one is either carried out, exactly once, or still
      waits for the device. */
  lemma EachOnce(flights: Flights, tickets: Tickets, done: seq<Done>, data: seq<int>, pushed: nat, s: nat)
    requires TicketsOk(flights, tickets, done, data) && SerialsOk(tickets, done, pushed) && s < pushed
    ensures CountOf(done, s) == if StillWaits(flights, tickets, s) then 0 else 1
  {
    CountsOne(done, s);
    if Served(done, s) {
      forall h | h in flights && h in tickets && tickets[h].serial == s ensures !Waits(flights[h]) {
        assert TicketOk(flights[h], tickets[h], done, data);
      }
    } else {
      var h :| h in tickets && tickets[h].serial == s;
      assert h in flights.Keys;
      ServedOrWaits(flights[h], tickets[h], done, data);
    }
  }
}
